/** Multipart uploads: internal/object/multipart.go over internal/storage/filesystem/parts.go.
    One upload session of one key; a part's file is named by its part number. */
module Multipart {
  import opened Basics
  import opened Orders

  /** A row of multipart_upload_parts. */
  datatype Part = Part(size: int, etag: string)

  datatype CompletePart = CompletePart(number: int, etag: string)

  /** The size and ETag of the object row. */
  datatype Record = Record(size: int, etag: string)

  datatype Outcome =
    | Completed(etag: string)
    | MalformedXML
    | NoSuchUpload
    | InvalidPartOrder
    | InvalidPart(number: int)
    | EntityTooSmall(number: int)
    | InsufficientSpace
    | InvalidArgument
    | Uploaded(partETag: string)
    | Failed

  const MIN_PART_SIZE := 5 * 1024 * 1024

  /** Which calls outside the service fail. */
  datatype Faults = Faults(lookup: bool, disk: bool, write: bool, row: bool, undo: bool, keepFiles: bool, keepUpload: bool)

  // ---------------------------------------------------------------- ETags as clients send them

  predicate Blank(c: char) {
    c == ' ' || c == '\t'
  }

  /** No blank at either end. */
  predicate Trimmed(s: string) {
    s == "" || (!Blank(s[0]) && !Blank(s[|s| - 1]))
  }

  predicate AllBlank(s: string) {
    forall c | c in s :: Blank(c)
  }

  function UnquoteETag(etag: string): string {
    var t := TrimRight(TrimLeft(etag, Blank), Blank);
    if |t| >= 2 && t[0] == '"' && t[|t| - 1] == '"' then t[1..|t| - 1] else t
  }

  method TrimSpace(s: string) returns (t: string)
    ensures t == TrimRight(TrimLeft(s, Blank), Blank)
  {
    t := s;
    while |t| > 0 && Blank(t[0])
      invariant TrimLeft(t, Blank) == TrimLeft(s, Blank)
    {
      t := t[1..];
    }
    while |t| > 0 && Blank(t[|t| - 1])
      invariant TrimRight(t, Blank) == TrimRight(TrimLeft(s, Blank), Blank)
    {
      t := t[..|t| - 1];
    }
  }

  method Unquote(etag: string) returns (r: string)
    ensures r == UnquoteETag(etag)
  {
    var t := TrimSpace(etag);
    if |t| >= 2 && t[0] == '"' && t[|t| - 1] == '"' {
      return t[1..|t| - 1];
    }
    return t;
  }

  lemma {:induction false} TrimLeftBlanks(l: string, s: string)
    requires AllBlank(l)
    ensures TrimLeft(l + s, Blank) == TrimLeft(s, Blank)
  {
    if l == "" {
      assert l + s == s;
    } else {
      assert l[0] in l && (l + s)[1..] == l[1..] + s;
      TrimLeftBlanks(l[1..], s);
    }
  }

  lemma {:induction false} TrimRightBlanks(s: string, r: string)
    requires AllBlank(r)
    ensures TrimRight(s + r, Blank) == TrimRight(s, Blank)
  {
    if r == "" {
      assert s + r == s;
    } else {
      assert r[|r| - 1] in r && (s + r)[..|s + r| - 1] == s + r[..|r| - 1];
      TrimRightBlanks(s, r[..|r| - 1]);
    }
  }

  /** Blanks around an ETag, and one pair of quotes, make no difference. */
  lemma UnquoteETagUndoesQuotes(l: string, e: string, r: string)
    requires AllBlank(l) && AllBlank(r)
    ensures UnquoteETag(l + (['"'] + e + ['"']) + r) == e
    ensures Trimmed(e) && e != "" && !(|e| >= 2 && e[0] == '"' && e[|e| - 1] == '"') ==> UnquoteETag(l + e + r) == e
  {
    var q := ['"'] + e + ['"'];
    assert l + q + r == l + (q + r) && l + e + r == l + (e + r);
    TrimLeftBlanks(l, q + r);
    TrimRightBlanks(q, r);
    TrimLeftBlanks(l, e + r);
    TrimRightBlanks(e, r);
  }

  // ---------------------------------------------------------------- what a request asks for

  predicate ByNumber(a: CompletePart, b: CompletePart) {
    a.number < b.number
  }

  ghost predicate DistinctNumbers(requested: seq<CompletePart>) {
    forall i, j | 0 <= i < j < |requested| :: requested[i].number != requested[j].number
  }

  /** The request in ascending part number. */
  function InOrder(requested: seq<CompletePart>): seq<CompletePart> {
    SortBy(ByNumber, requested)
  }

  lemma InOrderAscends(requested: seq<CompletePart>)
    requires DistinctNumbers(requested)
    ensures StrictTotalOn(ByNumber, Elems(requested))
    ensures Ascending(ByNumber, InOrder(requested)) && Elems(InOrder(requested)) == Elems(requested)
  {
    SortByAscending(ByNumber, requested);
  }

  /** Only which parts are requested matters, not the order they are listed in. */
  lemma InOrderUnique(requested: seq<CompletePart>, other: seq<CompletePart>)
    requires DistinctNumbers(requested) && Elems(other) == Elems(requested)
    ensures Ascending(ByNumber, other) ==> other == InOrder(requested)
    ensures DistinctNumbers(other) ==> InOrder(other) == InOrder(requested)
  {
    InOrderAscends(requested);
    if Ascending(ByNumber, other) {
      AscendingUnique(ByNumber, other, InOrder(requested));
    }
    if DistinctNumbers(other) {
      InOrderAscends(other);
      AscendingUnique(ByNumber, InOrder(other), InOrder(requested));
    }
  }

  predicate Usable(rows: map<int, Part>, r: CompletePart) {
    r.number in rows && rows[r.number].etag == UnquoteETag(r.etag)
  }

  /** Some other requested part comes after this one. */
  ghost predicate NotLast(requested: seq<CompletePart>, r: CompletePart) {
    exists o :: o in requested && r.number < o.number
  }

  ghost predicate PartFine(requested: seq<CompletePart>, rows: map<int, Part>, r: CompletePart) {
    Usable(rows, r) && (NotLast(requested, r) ==> rows[r.number].size >= 5_242_880)
  }

  ghost predicate FineBelow(requested: seq<CompletePart>, rows: map<int, Part>, n: int) {
    forall r | r in requested && r.number < n :: PartFine(requested, rows, r)
  }

  /** Part `n` is the first that is not as it should be. */
  ghost predicate FirstFault(requested: seq<CompletePart>, rows: map<int, Part>, n: int, usable: bool) {
    && FineBelow(requested, rows, n)
    && exists r :: r in requested && r.number == n && Usable(rows, r) == usable && !PartFine(requested, rows, r)
  }

  ghost predicate Acceptable(requested: seq<CompletePart>, rows: map<int, Part>) {
    DistinctNumbers(requested) && forall r | r in requested :: PartFine(requested, rows, r)
  }

  /** The verdict on a request that names a live upload. */
  ghost predicate Judged(requested: seq<CompletePart>, rows: map<int, Part>, out: Outcome) {
    match out
    case InvalidPartOrder => !DistinctNumbers(requested)
    case InvalidPart(n) => DistinctNumbers(requested) && FirstFault(requested, rows, n, false)
    case EntityTooSmall(n) => DistinctNumbers(requested) && FirstFault(requested, rows, n, true)
    case _ => Acceptable(requested, rows)
  }

  // ---------------------------------------------------------------- what is assembled

  predicate AllIn(parts: seq<CompletePart>, known: set<int>) {
    forall i | 0 <= i < |parts| :: parts[i].number in known
  }

  function Concat(files: map<int, Bytes>, parts: seq<CompletePart>): Bytes
    requires AllIn(parts, files.Keys)
  {
    if parts == [] then [] else Concat(files, parts[..|parts| - 1]) + files[parts[|parts| - 1].number]
  }

  function Sizes(rows: map<int, Part>, parts: seq<CompletePart>): int
    requires AllIn(parts, rows.Keys)
  {
    if parts == [] then 0 else Sizes(rows, parts[..|parts| - 1]) + rows[parts[|parts| - 1].number].size
  }

  function ETags(rows: map<int, Part>, parts: seq<CompletePart>): seq<string>
    requires AllIn(parts, rows.Keys)
  {
    if parts == [] then [] else ETags(rows, parts[..|parts| - 1]) + [rows[parts[|parts| - 1].number].etag]
  }

  /** Every part row describes the part file. */
  ghost predicate Agree(md5: Bytes -> string, rows: map<int, Part>, files: map<int, Bytes>) {
    forall n | n in rows :: n in files && rows[n] == Part(|files[n]|, md5(files[n]))
  }

  /** While part rows describe the part files, the size that is recorded is the assembled length. */
  lemma {:induction false} SizesAreLengths(md5: Bytes -> string, rows: map<int, Part>, files: map<int, Bytes>, parts: seq<CompletePart>)
    requires Agree(md5, rows, files) && AllIn(parts, rows.Keys)
    ensures AllIn(parts, files.Keys) && Sizes(rows, parts) == |Concat(files, parts)|
  {
    if parts != [] {
      SizesAreLengths(md5, rows, files, parts[..|parts| - 1]);
    }
  }

  /** The request in order: the same parts, each once, with rising numbers. */
  lemma InOrderMeans(requested: seq<CompletePart>, i: nat, j: nat)
    requires DistinctNumbers(requested) && i < j < |requested|
    ensures |InOrder(requested)| == |requested| && InOrder(requested)[i].number < InOrder(requested)[j].number
    ensures forall r :: r in InOrder(requested) <==> r in requested
  {
    InOrderAscends(requested);
    assert ByNumber(InOrder(requested)[i], InOrder(requested)[j]);
    assert forall r :: r in InOrder(requested) <==> r in Elems(InOrder(requested));
  }

  /** The bytes of earlier parts come first: assembling two stretches is assembling one after the other. */
  lemma {:induction false} ConcatMeans(files: map<int, Bytes>, a: seq<CompletePart>, z: seq<CompletePart>)
    requires AllIn(a, files.Keys) && AllIn(z, files.Keys)
    ensures AllIn(a + z, files.Keys) && Concat(files, a + z) == Concat(files, a) + Concat(files, z)
    ensures |a| == 1 ==> Concat(files, a) == files[a[0].number]
  {
    if |a| == 1 { assert a[..0] == []; }
    if z == [] {
      assert a + z == a;
    } else {
      var init, last := z[..|z| - 1], z[|z| - 1];
      assert (a + z)[..|a + z| - 1] == a + init;
      ConcatMeans(files, a, init);
    }
  }

  lemma {:induction false} ETagsMeans(rows: map<int, Part>, parts: seq<CompletePart>, i: nat)
    requires AllIn(parts, rows.Keys) && i < |parts|
    ensures |ETags(rows, parts)| == |parts| && ETags(rows, parts)[i] == rows[parts[i].number].etag
  {
    if |parts| > 1 {
      ETagsMeans(rows, parts[..|parts| - 1], if i < |parts| - 1 then i else 0);
    } else {
      assert parts[..0] == [];
    }
  }

  // ---------------------------------------------------------------- steps of a completion

  ghost predicate InNumberOrder(parts: seq<CompletePart>) {
    forall i, j | 0 <= i < j < |parts| :: parts[i].number <= parts[j].number
  }

  lemma InsertedInOrder(parts: seq<CompletePart>, x: CompletePart, p: nat)
    requires InNumberOrder(parts) && p <= |parts|
    requires p > 0 ==> parts[p - 1].number <= x.number
    requires p < |parts| ==> x.number <= parts[p].number
    ensures InNumberOrder(parts[..p] + [x] + parts[p..])
  {
    assert forall i | 0 <= i < p :: parts[i].number <= x.number;
    assert forall j | p <= j < |parts| :: x.number <= parts[j].number;
    var r := parts[..p] + [x] + parts[p..];
    forall i, j | 0 <= i < j < |r| ensures r[i].number <= r[j].number {
      assert i < p ==> r[i] == parts[i];
      assert j > p ==> r[j] == parts[j - 1];
      assert i > p ==> r[i] == parts[i - 1];
    }
  }

  method InsertPart(parts: seq<CompletePart>, x: CompletePart) returns (r: seq<CompletePart>)
    requires InNumberOrder(parts)
    ensures multiset(r) == multiset(parts) + multiset{x} && InNumberOrder(r)
  {
    var p := |parts|;
    while p > 0 && x.number < parts[p - 1].number
      invariant 0 <= p <= |parts| && (p < |parts| ==> x.number < parts[p].number)
    {
      p := p - 1;
    }
    InsertedInOrder(parts, x, p);
    assert parts == parts[..p] + parts[p..];
    r := parts[..p] + [x] + parts[p..];
  }

  /** sort.Slice: some arrangement in which part numbers do not fall. */
  method SortParts(requested: seq<CompletePart>) returns (sorted: seq<CompletePart>)
    ensures multiset(sorted) == multiset(requested) && InNumberOrder(sorted)
  {
    sorted := [];
    for i := 0 to |requested|
      invariant multiset(sorted) == multiset(requested[..i]) && InNumberOrder(sorted)
    {
      assert requested[..i + 1] == requested[..i] + [requested[i]];
      sorted := InsertPart(sorted, requested[i]);
    }
    assert requested[..|requested|] == requested;
  }

  lemma {:induction false} OnceEach(s: seq<CompletePart>)
    ensures NoDuplicates(s) <==> forall x | x in s :: multiset(s)[x] == 1
  {
    if s != [] {
      var init, last := s[..|s| - 1], s[|s| - 1];
      assert s == init + [last];
      assert multiset(s) == multiset(init) + multiset{last};
      OnceEach(init);
      if NoDuplicates(s) {
        assert last !in init;
        forall x | x in s ensures multiset(s)[x] == 1 {
          assert x in init ==> multiset(init)[x] == 1;
        }
      } else if NoDuplicates(init) {
        assert last in init;
        assert last in s && multiset(s)[last] == 2;
      } else {
        var x :| x in init && multiset(init)[x] != 1;
        assert x in s && multiset(s)[x] != 1;
      }
    }
  }

  ghost predicate NumbersTellApart(parts: set<CompletePart>) {
    forall x, y | x in parts && y in parts && x.number == y.number :: x == y
  }

  lemma DistinctIff(s: seq<CompletePart>)
    ensures DistinctNumbers(s) <==> NoDuplicates(s) && NumbersTellApart(Elems(s))
  {
    if DistinctNumbers(s) {
      forall x, y | x in Elems(s) && y in Elems(s) && x.number == y.number ensures x == y {
        var i :| 0 <= i < |s| && s[i] == x;
        var j :| 0 <= j < |s| && s[j] == y;
      }
      forall i, j | 0 <= i < j < |s| ensures s[i] != s[j] {
        assert s[i].number != s[j].number;
      }
    }
    if NoDuplicates(s) && NumbersTellApart(Elems(s)) {
      forall i, j | 0 <= i < j < |s| ensures s[i].number != s[j].number {
        assert s[i] in Elems(s) && s[j] in Elems(s);
      }
    }
  }

  lemma DistinctPermuted(a: seq<CompletePart>, b: seq<CompletePart>)
    requires multiset(a) == multiset(b)
    ensures Elems(a) == Elems(b) && (DistinctNumbers(a) <==> DistinctNumbers(b))
  {
    SameElems(a, b);
    OnceEach(a);
    OnceEach(b);
    assert forall x :: x in a <==> x in Elems(a);
    assert forall x :: x in b <==> x in Elems(b);
    DistinctIff(a);
    DistinctIff(b);
  }

  lemma SameElems(a: seq<CompletePart>, b: seq<CompletePart>)
    requires multiset(a) == multiset(b)
    ensures Elems(a) == Elems(b)
  {
    forall x ensures x in a <==> x in b {
      assert x in a <==> x in multiset(a);
      assert x in b <==> x in multiset(b);
    }
  }

  /** The check of neighbours. */
  method CheckOrder(sorted: seq<CompletePart>) returns (ok: bool)
    requires InNumberOrder(sorted)
    ensures ok <==> Ascending(ByNumber, sorted)
    ensures ok <==> DistinctNumbers(sorted)
  {
    var i := 1;
    while i < |sorted|
      invariant 1 <= i && (|sorted| > 0 ==> i <= |sorted| && Ascending(ByNumber, sorted[..i]))
    {
      assert sorted[i - 1] == sorted[..i][i - 1];
      if sorted[i].number <= sorted[i - 1].number {
        return false;
      }
      i := i + 1;
    }
    assert sorted == [] || sorted[..|sorted|] == sorted;
    return true;
  }

  /** Parts in order, up to the first that is not as it should be. */
  lemma FineSoFar(requested: seq<CompletePart>, rows: map<int, Part>, sorted: seq<CompletePart>, i: nat)
    requires Ascending(ByNumber, sorted) && Elems(sorted) == Elems(requested) && i < |sorted|
    ensures sorted[i] in requested && (NotLast(requested, sorted[i]) <==> i < |sorted| - 1)
    ensures (forall j | 0 <= j < i :: PartFine(requested, rows, sorted[j])) ==> FineBelow(requested, rows, sorted[i].number)
  {
    assert sorted[i] in Elems(sorted);
    if i < |sorted| - 1 {
      assert sorted[i + 1] in Elems(sorted) && ByNumber(sorted[i], sorted[i + 1]);
    }
    forall o | o in requested
      ensures exists j :: 0 <= j < |sorted| && sorted[j] == o
    {
      assert o in Elems(sorted);
    }
    forall j | 0 <= j < |sorted|
      ensures ByNumber(sorted[i], sorted[j]) <==> i < j
      ensures sorted[j].number < sorted[i].number <==> j < i
    {
    }
  }

  /** A request and any rearrangement of it get the same verdicts and the same assembly. */
  lemma RequestOrderIrrelevant(a: seq<CompletePart>, b: seq<CompletePart>, rows: map<int, Part>, out: Outcome)
    requires multiset(a) == multiset(b)
    ensures Judged(a, rows, out) <==> Judged(b, rows, out)
    ensures DistinctNumbers(a) ==> InOrder(a) == InOrder(b)
  {
    DistinctPermuted(a, b);
    assert forall x :: x in a <==> x in Elems(a);
    assert forall x :: x in b <==> x in Elems(b);
    forall r
      ensures PartFine(a, rows, r) <==> PartFine(b, rows, r)
    {
      assert NotLast(a, r) <==> NotLast(b, r);
    }
    if DistinctNumbers(a) {
      InOrderUnique(a, b);
    }
  }

  /** The checks of one part, all smaller ones being fine. */
  method CheckPart(ghost requested: seq<CompletePart>, rows: map<int, Part>, sorted: seq<CompletePart>, i: nat)
    returns (bad: Option<Outcome>)
    requires Ascending(ByNumber, sorted) && Elems(sorted) == Elems(requested) && DistinctNumbers(requested) && i < |sorted|
    requires forall j | 0 <= j < i :: PartFine(requested, rows, sorted[j])
    ensures bad.Some? ==> (bad.value.InvalidPart? || bad.value.EntityTooSmall?) && Judged(requested, rows, bad.value)
    ensures bad.None? ==> PartFine(requested, rows, sorted[i])
  {
    FineSoFar(requested, rows, sorted, i);
    var r := sorted[i];
    var given := Unquote(r.etag);
    if r.number !in rows || rows[r.number].etag != given {
      assert FirstFault(requested, rows, r.number, false);
      return Some(InvalidPart(r.number));
    }
    if i < |sorted| - 1 && rows[r.number].size < MIN_PART_SIZE {
      assert FirstFault(requested, rows, r.number, true);
      return Some(EntityTooSmall(r.number));
    }
    return None;
  }

  lemma PartsNext(rows: map<int, Part>, sorted: seq<CompletePart>, i: nat)
    requires i < |sorted| && AllIn(sorted[..i], rows.Keys) && sorted[i].number in rows
    ensures AllIn(sorted[..i + 1], rows.Keys)
    ensures ETags(rows, sorted[..i + 1]) == ETags(rows, sorted[..i]) + [rows[sorted[i].number].etag]
    ensures Sizes(rows, sorted[..i + 1]) == Sizes(rows, sorted[..i]) + rows[sorted[i].number].size
  {
    assert sorted[..i + 1][..i] == sorted[..i];
  }

  lemma AllFine(requested: seq<CompletePart>, rows: map<int, Part>, sorted: seq<CompletePart>)
    requires Elems(sorted) == Elems(requested) && DistinctNumbers(requested)
    requires forall j | 0 <= j < |sorted| :: PartFine(requested, rows, sorted[j])
    ensures Acceptable(requested, rows)
  {
    forall r | r in requested
      ensures PartFine(requested, rows, r)
    {
      assert r in Elems(requested);
      assert r in Elems(sorted);
      var j :| 0 <= j < |sorted| && sorted[j] == r;
    }
  }

  method CheckParts(ghost requested: seq<CompletePart>, rows: map<int, Part>, sorted: seq<CompletePart>)
    returns (bad: Option<Outcome>, etags: seq<string>, total: int)
    requires Ascending(ByNumber, sorted) && Elems(sorted) == Elems(requested) && DistinctNumbers(requested)
    ensures bad.Some? ==> (bad.value.InvalidPart? || bad.value.EntityTooSmall?) && Judged(requested, rows, bad.value)
    ensures bad.None? ==>
              && Acceptable(requested, rows) && AllIn(sorted, rows.Keys)
              && etags == ETags(rows, sorted) && total == Sizes(rows, sorted)
  {
    etags, total := [], 0;
    for i := 0 to |sorted|
      invariant AllIn(sorted[..i], rows.Keys)
      invariant etags == ETags(rows, sorted[..i]) && total == Sizes(rows, sorted[..i])
      invariant forall j | 0 <= j < i :: PartFine(requested, rows, sorted[j])
    {
      bad := CheckPart(requested, rows, sorted, i);
      if bad.Some? {
        return bad, etags, total;
      }
      PartsNext(rows, sorted, i);
      etags := etags + [rows[sorted[i].number].etag];
      total := total + rows[sorted[i].number].size;
    }
    assert sorted[..|sorted|] == sorted;
    AllFine(requested, rows, sorted);
    bad := None;
  }

  /** Everything that is settled before any file is touched. */
  method Judge(rows: map<int, Part>, requested: seq<CompletePart>)
    returns (bad: Option<Outcome>, sorted: seq<CompletePart>, etags: seq<string>, total: int)
    ensures bad.Some? ==>
              && (bad.value.InvalidPartOrder? || bad.value.InvalidPart? || bad.value.EntityTooSmall?)
              && Judged(requested, rows, bad.value) && !Acceptable(requested, rows)
    ensures bad.None? ==>
              && Acceptable(requested, rows) && sorted == InOrder(requested) && AllIn(sorted, rows.Keys)
              && etags == ETags(rows, sorted) && total == Sizes(rows, sorted)
  {
    sorted := SortParts(requested);
    DistinctPermuted(sorted, requested);
    var ordered := CheckOrder(sorted);
    if !ordered {
      return Some(InvalidPartOrder), sorted, [], 0;
    }
    InOrderUnique(requested, sorted);
    bad, etags, total := CheckParts(requested, rows, sorted);
  }

  /** Appends the part files one after the other; a part file that is missing ends the attempt. */
  method AssembleParts(files: map<int, Bytes>, sorted: seq<CompletePart>) returns (tmp: Option<Bytes>)
    ensures tmp.Some? <==> AllIn(sorted, files.Keys)
    ensures tmp.Some? ==> tmp.value == Concat(files, sorted)
  {
    var out: Bytes := [];
    for i := 0 to |sorted|
      invariant AllIn(sorted[..i], files.Keys) && out == Concat(files, sorted[..i])
    {
      assert sorted[..i + 1][..i] == sorted[..i];
      if sorted[i].number !in files {
        return None;
      }
      out := out + files[sorted[i].number];
    }
    assert sorted[..|sorted|] == sorted;
    return Some(out);
  }

  // ---------------------------------------------------------------- the session

  class Session {
    const md5: Bytes -> string
    /** The ETag of the whole from the part ETags; none when one of them is not hexadecimal. */
    const combine: seq<string> -> Option<string>
    var live: bool
    var rows: map<int, Part>
    var files: map<int, Bytes>
    var blob: Option<Bytes>
    var record: Option<Record>

    constructor (md5: Bytes -> string, combine: seq<string> -> Option<string>, blob: Option<Bytes>, record: Option<Record>)
      ensures live && rows == map[] && files == map[] && this.blob == blob && this.record == record
      ensures this.md5 == md5 && this.combine == combine
    {
      this.md5, this.combine := md5, combine;
      live, rows, files := true, map[], map[];
      this.blob, this.record := blob, record;
    }

    /** The file is renamed into place before its row is written. */
    method UploadPart(number: int, body: Bytes, f: Faults) returns (out: Outcome)
      modifies this
      ensures live == old(live) && blob == old(blob) && record == old(record)
      ensures out.Uploaded? <==>
                1 <= number <= 10000 && !f.lookup && old(live) && !f.disk && !f.write && !f.row
      ensures out.Uploaded? ==>
                && out.partETag == md5(body) && files == old(files)[number := body]
                && rows == old(rows)[number := Part(|body|, md5(body))]
      ensures old(Agree(md5, rows, files)) && !f.row ==> Agree(md5, rows, files)
      ensures number < 1 || number > 10000 ==> out == InvalidArgument
      ensures 1 <= number <= 10000 && !f.lookup && !old(live) ==> out == NoSuchUpload
      ensures 1 <= number <= 10000 && !f.lookup && old(live) && f.disk ==> out == InsufficientSpace
      ensures !out.Uploaded? ==> rows == old(rows)
      ensures files == if 1 <= number <= 10000 && !f.lookup && old(live) && !f.disk && !f.write
                       then old(files)[number := body] else old(files)
    {
      if number < 1 || number > 10000 {
        return InvalidArgument;
      }
      if f.lookup {
        return Failed;
      }
      if !live {
        return NoSuchUpload;
      }
      if f.disk {
        return InsufficientSpace;
      }
      if f.write {
        return Failed;
      }
      files := files[number := body];
      if f.row {
        return Failed;
      }
      rows := rows[number := Part(|body|, md5(body))];
      return Uploaded(md5(body));
    }

    /** A request that reaches the assembly. */
    ghost predicate Ready(requested: seq<CompletePart>, f: Faults)
      reads this
    {
      && requested != [] && !f.lookup && live && Acceptable(requested, rows) && !f.disk && !f.write
      && AllIn(InOrder(requested), files.Keys) && AllIn(InOrder(requested), rows.Keys)
    }

    /** A completion stores the requested parts in ascending part number, whatever order they were
        listed in, or leaves the record alone.  After a late failure the assembled blob, which has
        already replaced the previous one, is removed. */
    method CompleteMultipartUpload(requested: seq<CompletePart>, f: Faults) returns (out: Outcome)
      modifies this
      ensures requested == [] ==> out == MalformedXML
      ensures requested != [] && !f.lookup && !old(live) ==> out == NoSuchUpload
      ensures requested != [] && !f.lookup && old(live) ==> Judged(requested, old(rows), out)
      ensures requested != [] && !f.lookup && old(live) && Acceptable(requested, old(rows)) ==>
                if f.disk then out == InsufficientSpace else out.Completed? || out == Failed
      ensures out.Completed? <==>
                && old(Ready(requested, f)) && combine(old(ETags(rows, InOrder(requested)))).Some? && !f.row
      ensures out.Completed? ==>
                && blob == Some(old(Concat(files, InOrder(requested))))
                && combine(old(ETags(rows, InOrder(requested)))) == Some(out.etag)
                && record == Some(Record(old(Sizes(rows, InOrder(requested))), out.etag))
                && live == f.keepUpload && rows == (if f.keepUpload then old(rows) else map[])
                && files == if f.keepFiles then old(files) else map[]
      ensures out.Completed? && old(Agree(md5, rows, files)) ==> record.value.size == |blob.value|
      ensures !out.Completed? ==>
                && record == old(record) && live == old(live) && rows == old(rows) && files == old(files)
                && blob == if !old(Ready(requested, f)) then old(blob)
                           else if f.undo then Some(old(Concat(files, InOrder(requested)))) else None
    {
      if |requested| == 0 {
        return MalformedXML;
      }
      if f.lookup {
        return Failed;
      }
      if !live {
        return NoSuchUpload;
      }
      var bad, sorted, etags, total := Judge(rows, requested);
      if bad.Some? {
        return bad.value;
      }
      if f.disk {
        return InsufficientSpace;
      }
      var tmp := AssembleParts(files, sorted);
      if tmp.None? || f.write {
        return Failed;
      }
      blob := tmp;
      var whole := combine(etags);
      if whole.None? || f.row {
        if !f.undo {
          blob := None;
        }
        return Failed;
      }
      if Agree(md5, rows, files) {
        SizesAreLengths(md5, rows, files, sorted);
      }
      record := Some(Record(total, whole.value));
      if !f.keepFiles {
        files := map[];
      }
      if !f.keepUpload {
        live, rows := false, map[];
      }
      return Completed(whole.value);
    }

    method AbortMultipartUpload(f: Faults) returns (out: bool)
      modifies this
      ensures out <==> !f.lookup && old(live) && !f.keepFiles && !f.keepUpload
      ensures blob == old(blob) && record == old(record)
      ensures out ==> !live && rows == map[]
      ensures !out ==> live == old(live) && rows == old(rows)
      ensures files == if !f.lookup && old(live) && !f.keepFiles then map[] else old(files)
    {
      if f.lookup || !live || f.keepFiles {
        return false;
      }
      files := map[];
      if f.keepUpload {
        return false;
      }
      live, rows := false, map[];
      return true;
    }
  }

  // ---------------------------------------------------------------- whole uploads

  /** How an UploadPart call ended: both file and row written, or only the file. */
  datatype PartEvent = Stored(number: int, body: Bytes) | RowFailed(number: int, body: Bytes)

  function RowsAfter(md5: Bytes -> string, h: seq<PartEvent>): map<int, Part> {
    if h == [] then map[]
    else
      var rows, e := RowsAfter(md5, h[..|h| - 1]), h[|h| - 1];
      if e.Stored? then rows[e.number := Part(|e.body|, md5(e.body))] else rows
  }

  function FilesAfter(h: seq<PartEvent>): map<int, Bytes> {
    if h == [] then map[] else FilesAfter(h[..|h| - 1])[h[|h| - 1].number := h[|h| - 1].body]
  }

  /** Event `i` is the last one for its part, or the last whose row was written. */
  ghost predicate LastFor(h: seq<PartEvent>, i: nat, stored: bool) {
    && i < |h| && (stored ==> h[i].Stored?)
    && forall j | i < j < |h| && h[j].number == h[i].number :: stored && !h[j].Stored?
  }

  lemma {:induction false} RowsFrom(md5: Bytes -> string, h: seq<PartEvent>, i: nat)
    requires LastFor(h, i, true)
    ensures h[i].number in RowsAfter(md5, h)
    ensures RowsAfter(md5, h)[h[i].number] == Part(|h[i].body|, md5(h[i].body))
  {
    if i < |h| - 1 {
      var init := h[..|h| - 1];
      assert forall j | i < j < |init| :: init[j] == h[j];
      RowsFrom(md5, init, i);
    }
  }

  lemma {:induction false} FilesFrom(h: seq<PartEvent>, i: nat)
    requires LastFor(h, i, false)
    ensures h[i].number in FilesAfter(h) && FilesAfter(h)[h[i].number] == h[i].body
  {
    if i < |h| - 1 {
      var init := h[..|h| - 1];
      assert forall j | i < j < |init| :: init[j] == h[j];
      FilesFrom(init, i);
    }
  }

  /** A row or file is there because of some event. */
  lemma {:induction false} LastEvent(md5: Bytes -> string, h: seq<PartEvent>, n: int) returns (i: nat, k: nat)
    requires n in RowsAfter(md5, h)
    ensures LastFor(h, i, true) && LastFor(h, k, false) && h[i].number == h[k].number == n
  {
    var init, e := h[..|h| - 1], h[|h| - 1];
    assert forall j | 0 <= j < |init| :: init[j] == h[j];
    if e.number == n && e.Stored? {
      i, k := |init|, |init|;
    } else {
      i, k := LastEvent(md5, init, n);
      if e.number == n {
        k := |init|;
      }
    }
  }

  /** Whether the last write to the row and the last write to the file of a part say the same. */
  ghost predicate NothingLost(md5: Bytes -> string, h: seq<PartEvent>) {
    forall i: nat, k: nat | LastFor(h, i, true) && LastFor(h, k, false) && h[i].number == h[k].number ::
      |h[i].body| == |h[k].body| && md5(h[i].body) == md5(h[k].body)
  }

  /** Over any history of part uploads the part rows describe the part files exactly when no part's
      last upload lost its row while replacing its file with different bytes. */
  lemma PartsAgreeIff(md5: Bytes -> string, h: seq<PartEvent>)
    ensures Agree(md5, RowsAfter(md5, h), FilesAfter(h)) <==> NothingLost(md5, h)
  {
    var rows, files := RowsAfter(md5, h), FilesAfter(h);
    if Agree(md5, rows, files) {
      forall i: nat, k: nat | LastFor(h, i, true) && LastFor(h, k, false) && h[i].number == h[k].number
        ensures |h[i].body| == |h[k].body| && md5(h[i].body) == md5(h[k].body)
      {
        RowsFrom(md5, h, i);
        FilesFrom(h, k);
      }
    }
    if NothingLost(md5, h) {
      forall n | n in rows
        ensures n in files && rows[n] == Part(|files[n]|, md5(files[n]))
      {
        var i, k := LastEvent(md5, h, n);
        RowsFrom(md5, h, i);
        FilesFrom(h, k);
      }
    }
  }

  /** Uploading a part again and losing its row leaves a request for the first upload acceptable; the
      size it records is then the assembled length only if both uploads were equally long. */
  lemma LostRowMisreportsSize(md5: Bytes -> string, b0: Bytes, b1: Bytes)
    requires UnquoteETag(md5(b0)) == md5(b0)
    ensures var h := [Stored(1, b0), RowFailed(1, b1)];
            var rows, files, parts := RowsAfter(md5, h), FilesAfter(h), [CompletePart(1, md5(b0))];
            && Acceptable(parts, rows) && AllIn(parts, rows.Keys) && AllIn(parts, files.Keys)
            && (Sizes(rows, parts) == |Concat(files, parts)| <==> |b0| == |b1|)
            && Concat(files, parts) == b1
  {
    var h := [Stored(1, b0), RowFailed(1, b1)];
    assert h[..1] == [Stored(1, b0)] && h[..1][..0] == [];
    var rows, files, parts := RowsAfter(md5, h), FilesAfter(h), [CompletePart(1, md5(b0))];
    assert RowsAfter(md5, h[..1]) == map[1 := Part(|b0|, md5(b0))] && FilesAfter(h[..1]) == map[1 := b0];
    assert rows == map[1 := Part(|b0|, md5(b0))] && files == map[1 := b1];
    assert parts[..0] == [];
    assert Usable(rows, parts[0]);
  }

  lemma TrimNothing(s: string)
    requires Trimmed(s)
    ensures TrimRight(TrimLeft(s, Blank), Blank) == s
  {
  }

  /** A digest in hexadecimal is sent as it is. */
  lemma HexIsUnquoted(s: string)
    requires forall i | 0 <= i < |s| :: '0' <= s[i] <= '9' || 'a' <= s[i] <= 'f'
    ensures UnquoteETag(s) == s
  {
    TrimNothing(s);
  }
}
