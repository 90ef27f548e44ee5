/** Object listing: ListObjects, paginateFlat, listWithDelimiter and effectiveStart of
    internal/metadata/sqlite/store.go.  A bucket is its rows in key order, as the index yields them. */
module Listing {
  import opened Orders

  datatype Entry = Entry(key: string, size: int, deleted: bool)

  datatype Options = Options(prefix: string, delimiter: string, maxKeys: int, token: string, startAfter: string)

  datatype ListResult = ListResult(objects: seq<Entry>, commonPrefixes: seq<string>, nextToken: string, truncated: bool)

  predicate ByKey(a: Entry, b: Entry) {
    Less(a.key, b.key)
  }

  /** Rows of one bucket: distinct, non-empty keys in ascending order. */
  ghost predicate IsTable(rows: seq<Entry>) {
    Ascending(ByKey, rows) && forall r | r in rows :: r.key != ""
  }

  function Filter(rows: seq<Entry>, keep: Entry -> bool): (kept: seq<Entry>)
    ensures |kept| <= |rows|
  {
    if rows == [] then []
    else Filter(rows[..|rows| - 1], keep) + if keep(rows[|rows| - 1]) then [rows[|rows| - 1]] else []
  }

  lemma {:induction false} FilterMembers(rows: seq<Entry>, keep: Entry -> bool)
    ensures forall r :: r in Filter(rows, keep) <==> r in rows && keep(r)
  {
    if rows != [] {
      assert rows == rows[..|rows| - 1] + [rows[|rows| - 1]];
      FilterMembers(rows[..|rows| - 1], keep);
    }
  }

  lemma {:induction false} FilterAscending(rows: seq<Entry>, keep: Entry -> bool)
    requires Ascending(ByKey, rows)
    ensures Ascending(ByKey, Filter(rows, keep))
  {
    if rows != [] {
      var init, last := rows[..|rows| - 1], rows[|rows| - 1];
      FilterAscending(init, keep);
      FilterMembers(init, keep);
      var f := Filter(init, keep);
      forall i | 0 <= i < |f|
        ensures ByKey(f[i], last)
      {
        assert f[i] in init;
      }
    }
  }

  lemma {:induction false} FilterSame(rows: seq<Entry>, p: Entry -> bool, q: Entry -> bool)
    requires forall r | r in rows :: p(r) == q(r)
    ensures Filter(rows, p) == Filter(rows, q)
  {
    if rows != [] {
      assert rows[|rows| - 1] in rows;
      FilterSame(rows[..|rows| - 1], p, q);
    }
  }

  // ---------------------------------------------------------------- the scan

  function EffectiveStart(o: Options): string {
    if o.startAfter != "" then o.startAfter else o.prefix
  }

  /** What a listing means: the live keys with the prefix. */
  predicate Matches(prefix: string, r: Entry) {
    prefix <= r.key && !r.deleted
  }

  function Matching(prefix: string): Entry -> bool {
    (r: Entry) => Matches(prefix, r)
  }

  function InRange(o: Options): Entry -> bool {
    (r: Entry) => AtMost(EffectiveStart(o), r.key) && Matches(o.prefix, r)
  }

  /** The range query followed by the filters of the row loop. */
  method ScanRows(rows: seq<Entry>, o: Options) returns (all: seq<Entry>)
    ensures all == Filter(rows, InRange(o))
  {
    all := [];
    for i := 0 to |rows|
      invariant all == Filter(rows[..i], InRange(o))
    {
      assert rows[..i + 1][..i] == rows[..i];
      var r := rows[i];
      if AtMost(EffectiveStart(o), r.key) {
        if (o.prefix == "" || o.prefix <= r.key) && !r.deleted {
          all := all + [r];
        }
      }
    }
    assert rows[..|rows|] == rows;
  }

  /** Starting the scan at the prefix loses no matching key. */
  lemma RangeScanIsPlainFilter(rows: seq<Entry>, o: Options)
    requires o.startAfter == ""
    ensures Filter(rows, InRange(o)) == Filter(rows, Matching(o.prefix))
  {
    forall r | r in rows
      ensures InRange(o)(r) == Matching(o.prefix)(r)
    {
      if o.prefix <= r.key {
        PrefixAtMost(o.prefix, r.key);
      }
    }
    FilterSame(rows, InRange(o), Matching(o.prefix));
  }

  /** StartAfter does not exclude its own key: it is listed exactly when it is a live matching key. */
  lemma StartAfterIsInclusive(rows: seq<Entry>, o: Options, r: Entry)
    requires o.startAfter != "" && r.key == o.startAfter
    ensures r in Filter(rows, InRange(o)) <==> r in rows && Matches(o.prefix, r)
  {
    FilterMembers(rows, InRange(o));
  }

  /** A listing starts strictly after StartAfter exactly when that is not itself a live matching key. */
  lemma StartAfterExclusiveIff(rows: seq<Entry>, o: Options)
    requires o.startAfter != ""
    ensures (forall r | r in Filter(rows, InRange(o)) :: Less(o.startAfter, r.key)) <==>
            forall r | r in rows && Matches(o.prefix, r) :: r.key != o.startAfter
  {
    FilterMembers(rows, InRange(o));
    LessIrreflexive(o.startAfter);
    if forall r | r in Filter(rows, InRange(o)) :: Less(o.startAfter, r.key) {
      forall r | r in rows && Matches(o.prefix, r) ensures r.key != o.startAfter {
        assert r.key == o.startAfter ==> InRange(o)(r);
      }
    }
    if forall r | r in rows && Matches(o.prefix, r) :: r.key != o.startAfter {
      forall r | r in Filter(rows, InRange(o)) ensures Less(o.startAfter, r.key) {
        assert InRange(o)(r);
      }
    }
  }

  // ---------------------------------------------------------------- pages

  /** The first place from `i` on whose key is past the token. */
  function StartFrom(all: seq<Entry>, token: string, i: nat): (start: nat)
    requires i <= |all|
    ensures i <= start <= |all|
    ensures start < |all| ==> Less(token, all[start].key)
    ensures forall j | i <= j < start :: !Less(token, all[j].key)
    decreases |all| - i
  {
    if i == |all| || Less(token, all[i].key) then i else StartFrom(all, token, i + 1)
  }

  function StartIndex(all: seq<Entry>, token: string): nat {
    StartFrom(all, token, 0)
  }

  function PageStart(all: seq<Entry>, token: string): nat {
    if token == "" then 0 else StartIndex(all, token)
  }

  function MaxKeys(o: Options): nat {
    if o.maxKeys <= 0 then 1000 else o.maxKeys
  }

  function Page(all: seq<Entry>, token: string, max: nat): (r: ListResult)
    requires max >= 1
    ensures r.truncated ==> |r.objects| == max
  {
    var start := PageStart(all, token);
    var end := if start + max > |all| then |all| else start + max;
    var page := if start <= end then all[start..end] else [];
    var truncated := start + max < |all|;
    ListResult(page, [], if truncated && |page| > 0 then page[|page| - 1].key else "", truncated)
  }

  /** What a page is: the listing falls into what is not past the token, the page, and what follows; the
      page has at most MaxKeys objects, 1000 by default, and is truncated exactly when something follows,
      with its last key as the token. */
  lemma PageMeans(all: seq<Entry>, o: Options) returns (before: seq<Entry>, after: seq<Entry>)
    ensures var r := Page(all, o.token, MaxKeys(o));
            && all == before + r.objects + after
            && (forall e | e in before :: o.token != "" && !Less(o.token, e.key))
            && (r.objects != [] && o.token != "" ==> Less(o.token, r.objects[0].key))
            && |r.objects| <= (if o.maxKeys <= 0 then 1000 else o.maxKeys)
            && (r.truncated <==> after != [])
            && (r.truncated ==> |r.objects| == (if o.maxKeys <= 0 then 1000 else o.maxKeys))
            && r.nextToken == (if r.truncated then r.objects[|r.objects| - 1].key else "")
            && r.commonPrefixes == []
  {
    var start, r := PageStart(all, o.token), Page(all, o.token, MaxKeys(o));
    before, after := all[..start], all[start + |r.objects|..];
    ThreeParts(all, start, r.objects);
  }

  lemma ThreeParts(all: seq<Entry>, start: nat, page: seq<Entry>)
    requires start + |page| <= |all| && page == all[start..start + |page|]
    ensures all == all[..start] + page + all[start + |page|..]
  {
  }

  lemma StartIndexUnique(all: seq<Entry>, token: string, start: nat)
    requires start <= |all|
    requires start < |all| ==> Less(token, all[start].key)
    requires forall i | 0 <= i < start :: !Less(token, all[i].key)
    ensures StartIndex(all, token) == start
  {
  }

  method PaginateFlat(all: seq<Entry>, o: Options) returns (r: ListResult)
    ensures r == Page(all, o.token, MaxKeys(o))
  {
    var max := if o.maxKeys <= 0 then 1000 else o.maxKeys;
    var start := 0;
    if o.token != "" {
      for i := 0 to |all|
        invariant forall j | 0 <= j < i :: !Less(o.token, all[j].key)
        invariant start == if i == |all| then |all| else 0
      {
        if Less(o.token, all[i].key) {
          start := i;
          break;
        }
        if i == |all| - 1 {
          start := |all|;
        }
      }
      StartIndexUnique(all, o.token, start);
    }
    var end := start + max;
    var truncated := end < |all|;
    if end > |all| {
      end := |all|;
    }
    var page := all[start..end];
    var next := "";
    if truncated && |page| > 0 {
      next := page[|page| - 1].key;
    }
    return ListResult(page, [], next, truncated);
  }

  /** The token of a page resumes right after the page. */
  lemma TokenResumes(all: seq<Entry>, i: nat)
    requires Ascending(ByKey, all) && i < |all|
    ensures StartIndex(all, all[i].key) == i + 1
  {
    forall j | 0 <= j <= i
      ensures !Less(all[i].key, all[j].key)
    {
      LessIrreflexive(all[i].key);
      if j < i {
        assert ByKey(all[j], all[i]);
        if Less(all[i].key, all[j].key) { LessTransitive(all[i].key, all[j].key, all[i].key); }
      }
    }
    StartIndexUnique(all, all[i].key, i + 1);
  }

  lemma TokenIsLastKey(all: seq<Entry>, max: nat, token: string) returns (last: nat)
    requires max >= 1 && Page(all, token, max).truncated
    ensures last + 1 == PageStart(all, token) + max && last < |all| && Page(all, token, max).nextToken == all[last].key
  {
    var start := PageStart(all, token);
    last := start + max - 1;
    var page := all[start..start + max];
    assert page[max - 1] == all[last];
  }

  lemma ResumeAfter(all: seq<Entry>, i: nat)
    requires IsTable(all) && i < |all|
    ensures PageStart(all, all[i].key) == i + 1
  {
    assert all[i] in all;
    TokenResumes(all, i);
  }

  lemma NextPage(all: seq<Entry>, max: nat, token: string)
    requires max >= 1 && IsTable(all) && Page(all, token, max).truncated
    ensures PageStart(all, Page(all, token, max).nextToken) == PageStart(all, token) + max
  {
    var last := TokenIsLastKey(all, max, token);
    ResumeAfter(all, last);
  }

  /** A page is the next stretch of the listing, and the last one reaches its end. */
  lemma PageIsNext(all: seq<Entry>, max: nat, token: string)
    requires max >= 1 && PageStart(all, token) <= |all|
    ensures var start, r := PageStart(all, token), Page(all, token, max);
            if r.truncated then start + max <= |all| && all[..start] + r.objects == all[..start + max]
            else all[..start] + r.objects == all
  {
  }

  /** A walk that has come as far as `token` comes as far as the page's own token, or to the end. */
  lemma WalkStep(all: seq<Entry>, max: nat, token: string)
    requires max >= 1 && IsTable(all) && PageStart(all, token) <= |all|
    ensures var start, r := PageStart(all, token), Page(all, token, max);
            if r.truncated then
              && start < PageStart(all, r.nextToken) <= |all|
              && all[..start] + r.objects == all[..PageStart(all, r.nextToken)]
            else all[..start] + r.objects == all
  {
    PageIsNext(all, max, token);
    if Page(all, token, max).truncated {
      NextPage(all, max, token);
    }
  }

  // ---------------------------------------------------------------- delimiter roll-up

  /** The first place where `d` occurs in `s`, or -1. */
  function Index(s: string, d: string): (i: int)
    ensures -1 <= i && (i >= 0 ==> i + |d| <= |s|)
  {
    if |s| < |d| then -1
    else if d <= s then 0
    else if s == "" then -1
    else var i := Index(s[1..], d); if i < 0 then -1 else i + 1
  }

  ghost predicate OccursAt(s: string, d: string, i: int) {
    0 <= i && i + |d| <= |s| && s[i..i + |d|] == d
  }

  /** It is the first place where `d` occurs, and -1 when there is none. */
  lemma {:induction false} IndexMeans(s: string, d: string)
    ensures Index(s, d) >= 0 ==> OccursAt(s, d, Index(s, d))
    ensures forall j | OccursAt(s, d, j) :: 0 <= Index(s, d) <= j
  {
    if |s| >= |d| {
      if d <= s {
        assert s[0..|d|] == d;
      } else if s != "" {
        IndexMeans(s[1..], d);
        if Index(s[1..], d) >= 0 {
          var i := Index(s[1..], d);
          assert s[1..][i..i + |d|] == s[i + 1..i + 1 + |d|];
        }
        assert s[0..|d|] != d;
        forall j | OccursAt(s, d, j)
          ensures 0 <= Index(s, d) <= j
        {
          assert j != 0;
          assert j > 0 ==> s[1..][j - 1..j - 1 + |d|] == s[j..j + |d|];
          assert j > 0 && OccursAt(s[1..], d, j - 1);
        }
      }
    }
  }

  lemma {:induction false} IndexOfExtension(r: string, s: string, d: string)
    requires d != "" && r <= s && Index(r, d) >= 0
    ensures Index(s, d) == Index(r, d)
  {
    if d <= r {
      assert d <= s;
    } else {
      assert r[1..] <= s[1..];
      IndexOfExtension(r[1..], s[1..], d);
      assert !(d <= s) by { assert r[..|d|] == s[..|d|]; }
    }
  }

  lemma {:induction false} IndexOfCut(s: string, d: string)
    requires d != "" && Index(s, d) >= 0
    ensures Index(s[..Index(s, d) + |d|], d) == Index(s, d)
  {
    var cut := s[..Index(s, d) + |d|];
    if !(d <= s) {
      IndexOfCut(s[1..], d);
      assert cut[1..] == s[1..][..Index(s[1..], d) + |d|];
      assert !(d <= cut) by { assert cut[..|d|] == s[..|d|]; }
    }
  }

  predicate RollsUp(o: Options, key: string) {
    o.prefix <= key && Index(key[|o.prefix|..], o.delimiter) >= 0
  }

  function CommonPrefix(o: Options, key: string): string
    requires RollsUp(o, key)
  {
    var rest := key[|o.prefix|..];
    o.prefix + rest[..Index(rest, o.delimiter) + |o.delimiter|]
  }

  /** A key is rolled up exactly when the delimiter occurs in what follows the prefix, and its common
      prefix is the key up to the end of the first occurrence. */
  lemma RollsUpMeans(o: Options, key: string)
    requires o.prefix <= key
    ensures RollsUp(o, key) <==> exists j :: OccursAt(key[|o.prefix|..], o.delimiter, j)
    ensures RollsUp(o, key) ==>
              exists j :: && OccursAt(key[|o.prefix|..], o.delimiter, j)
                          && (forall k | OccursAt(key[|o.prefix|..], o.delimiter, k) :: j <= k)
                          && CommonPrefix(o, key) == key[..|o.prefix| + j + |o.delimiter|]
  {
    var rest := key[|o.prefix|..];
    IndexMeans(rest, o.delimiter);
    if RollsUp(o, key) {
      var j := Index(rest, o.delimiter);
      assert OccursAt(rest, o.delimiter, j);
      assert key == o.prefix + rest;
      assert CommonPrefix(o, key) == key[..|o.prefix| + j + |o.delimiter|];
    }
  }

  function NotRolledUp(o: Options): Entry -> bool {
    (r: Entry) => !RollsUp(o, r.key)
  }

  ghost function PrefixesOf(o: Options, rows: seq<Entry>): set<string> {
    set r | r in rows && RollsUp(o, r.key) :: CommonPrefix(o, r.key)
  }

  lemma PrefixesOfNext(o: Options, rows: seq<Entry>, r: Entry)
    ensures RollsUp(o, r.key) ==> PrefixesOf(o, rows + [r]) == PrefixesOf(o, rows) + {CommonPrefix(o, r.key)}
    ensures !RollsUp(o, r.key) ==> PrefixesOf(o, rows + [r]) == PrefixesOf(o, rows)
  {
    forall p | p in PrefixesOf(o, rows)
      ensures p in PrefixesOf(o, rows + [r])
    {
      var x :| x in rows && RollsUp(o, x.key) && p == CommonPrefix(o, x.key);
      assert x in rows + [r];
    }
    assert r in rows + [r];
  }

  lemma FilterNext(rows: seq<Entry>, keep: Entry -> bool, r: Entry)
    ensures Filter(rows + [r], keep) == Filter(rows, keep) + if keep(r) then [r] else []
  {
    assert (rows + [r])[..|rows|] == rows;
  }

  /** The members of a set in the arbitrary order a map is ranged over. */
  method RangeOver(s: set<string>) returns (q: seq<string>)
    ensures Elems(q) == s && NoDuplicates(q)
  {
    q := [];
    var left := s;
    while left != {}
      invariant left !! Elems(q) && left + Elems(q) == s && NoDuplicates(q)
    {
      var p: string :| p in left;
      assert Elems(q + [p]) == Elems(q) + {p};
      q := q + [p];
      left := left - {p};
    }
  }

  method SortedPrefixes(s: set<string>) returns (q: seq<string>)
    ensures Ascending(Less, q) && Elems(q) == s
  {
    var some := RangeOver(s);
    StringsTotal(Elems(some));
    SortByAscending(Less, some);
    return SortBy(Less, some);
  }

  /** The place of one key: the common prefix it falls under, if any. */
  method CommonPrefixOf(r: Entry, o: Options) returns (rolled: bool, common: string)
    requires o.prefix <= r.key
    ensures rolled == RollsUp(o, r.key) && (rolled ==> common == CommonPrefix(o, r.key))
  {
    var rest := r.key[|o.prefix|..];
    var idx := Index(rest, o.delimiter);
    rolled, common := idx >= 0, "";
    if rolled {
      common := o.prefix + rest[..idx + |o.delimiter|];
    }
  }

  /** The keys done so far are sorted into objects and common prefixes. */
  ghost predicate Rolled(done: seq<Entry>, o: Options, objects: seq<Entry>, prefixSet: set<string>) {
    objects == Filter(done, NotRolledUp(o)) && prefixSet == PrefixesOf(o, done)
  }

  lemma RolledNext(done: seq<Entry>, r: Entry, o: Options, objects: seq<Entry>, prefixSet: set<string>)
    requires Rolled(done, o, objects, prefixSet)
    ensures RollsUp(o, r.key) ==> Rolled(done + [r], o, objects, prefixSet + {CommonPrefix(o, r.key)})
    ensures !RollsUp(o, r.key) ==> Rolled(done + [r], o, objects + [r], prefixSet)
  {
    PrefixesOfNext(o, done, r);
    FilterNext(done, NotRolledUp(o), r);
  }

  method RollUp(all: seq<Entry>, o: Options) returns (objects: seq<Entry>, prefixSet: set<string>)
    requires forall x | x in all :: o.prefix <= x.key
    ensures objects == Filter(all, NotRolledUp(o)) && prefixSet == PrefixesOf(o, all)
  {
    prefixSet, objects := {}, [];
    for i := 0 to |all|
      invariant Rolled(all[..i], o, objects, prefixSet)
    {
      assert all[i] in all && all[..i + 1] == all[..i] + [all[i]];
      RolledNext(all[..i], all[i], o, objects, prefixSet);
      var rolled, common := CommonPrefixOf(all[i], o);
      if rolled {
        prefixSet := prefixSet + {common};
      } else {
        objects := objects + [all[i]];
      }
    }
    assert all[..|all|] == all;
  }

  method ListWithDelimiter(all: seq<Entry>, o: Options) returns (r: ListResult)
    requires forall x | x in all :: o.prefix <= x.key
    ensures r == Page(Filter(all, NotRolledUp(o)), o.token, MaxKeys(o)).(commonPrefixes := r.commonPrefixes)
    ensures Ascending(Less, r.commonPrefixes) && Elems(r.commonPrefixes) == PrefixesOf(o, all)
  {
    var objects, prefixSet := RollUp(all, o);
    var prefixes := SortedPrefixes(prefixSet);
    r := PaginateFlat(objects, o);
    r := r.(commonPrefixes := prefixes);
  }

  /** A key under the common prefix of another key has that common prefix too. */
  lemma SameCommonPrefix(o: Options, other: string, key: string)
    requires o.delimiter != "" && o.prefix <= key && RollsUp(o, other) && CommonPrefix(o, other) <= key
    ensures RollsUp(o, key) && CommonPrefix(o, key) == CommonPrefix(o, other)
  {
    var d := o.delimiter;
    var rest, own := other[|o.prefix|..], key[|o.prefix|..];
    var cut := rest[..Index(rest, d) + |d|];
    IndexOfCut(rest, d);
    assert cut == CommonPrefix(o, other)[|o.prefix|..];
    assert |cut| <= |own| && cut == own[..|cut|];
    IndexOfExtension(cut, own, d);
  }

  /** No key falls under two of the common prefixes. */
  lemma OnePrefixPerKey(o: Options, rows: seq<Entry>, key: string, p: string)
    requires o.delimiter != "" && o.prefix <= key && p in PrefixesOf(o, rows) && p <= key
    ensures RollsUp(o, key) && p == CommonPrefix(o, key)
  {
    var r :| r in rows && RollsUp(o, r.key) && p == CommonPrefix(o, r.key);
    SameCommonPrefix(o, r.key, key);
  }

  /** A key that is not rolled up falls under no common prefix, one that is under exactly one. */
  lemma PrefixesOver(o: Options, all: seq<Entry>, r: Entry)
    requires o.delimiter != "" && o.prefix <= r.key && r in all
    ensures RollsUp(o, r.key) ==> CommonPrefixIsTheOnlyOne(o, all, r.key) && CommonPrefix(o, r.key) <= r.key
    ensures !RollsUp(o, r.key) ==> forall p | p in PrefixesOf(o, all) :: !(p <= r.key)
  {
    forall p | p in PrefixesOf(o, all) && p <= r.key
      ensures RollsUp(o, r.key) && p == CommonPrefix(o, r.key)
    {
      OnePrefixPerKey(o, all, r.key, p);
    }
  }

  /** With a delimiter, each live key with the prefix is either listed as an object or falls under
      exactly one common prefix, and each common prefix stands for some live key. */
  lemma RollUpPartition(rows: seq<Entry>, o: Options, r: Entry)
    requires o.startAfter == "" && o.delimiter != "" && r in rows && Matches(o.prefix, r)
    ensures var all := Filter(rows, InRange(o));
            var listed := Filter(all, NotRolledUp(o));
            && (r in listed <==> forall p | p in PrefixesOf(o, all) :: !(p <= r.key))
            && (r !in listed ==> CommonPrefixIsTheOnlyOne(o, all, r.key))
  {
    var all := Filter(rows, InRange(o));
    RangeScanIsPlainFilter(rows, o);
    FilterMembers(rows, Matching(o.prefix));
    FilterMembers(all, NotRolledUp(o));
    PrefixesOver(o, all, r);
  }

  ghost predicate CommonPrefixIsTheOnlyOne(o: Options, all: seq<Entry>, key: string) {
    && RollsUp(o, key) && CommonPrefix(o, key) in PrefixesOf(o, all)
    && forall p | p in PrefixesOf(o, all) && p <= key :: p == CommonPrefix(o, key)
  }

  /** What is listed: every live matching key, less those rolled up when there is a delimiter, in
      ascending order. */
  lemma ListedIff(rows: seq<Entry>, o: Options)
    requires IsTable(rows)
    ensures IsTable(Listed(rows, o))
    ensures forall r :: r in Listed(rows, o) <==>
              && r in rows && Matches(o.prefix, r)
              && (o.startAfter == "" || AtMost(o.startAfter, r.key))
              && (o.delimiter == "" || !RollsUp(o, r.key))
  {
    var all := Filter(rows, InRange(o));
    FilterAscending(rows, InRange(o));
    FilterMembers(rows, InRange(o));
    FilterAscending(all, NotRolledUp(o));
    FilterMembers(all, NotRolledUp(o));
    if o.startAfter == "" {
      RangeScanIsPlainFilter(rows, o);
      FilterMembers(rows, Matching(o.prefix));
    }
  }

  /** The token decides where a page starts, not what there is to list. */
  lemma ListedIgnoresToken(rows: seq<Entry>, o: Options, token: string)
    ensures Listed(rows, o.(token := token)) == Listed(rows, o)
  {
    var o' := o.(token := token);
    FilterSame(rows, InRange(o'), InRange(o));
    FilterSame(Filter(rows, InRange(o)), NotRolledUp(o'), NotRolledUp(o));
  }

  /** The objects all pages of a listing are cut from. */
  function Listed(rows: seq<Entry>, o: Options): seq<Entry> {
    var all := Filter(rows, InRange(o));
    if o.delimiter == "" then all else Filter(all, NotRolledUp(o))
  }

  /** The listing as a whole. */
  method ListObjects(rows: seq<Entry>, o: Options) returns (r: ListResult)
    ensures r == Page(Listed(rows, o), o.token, MaxKeys(o)).(commonPrefixes := r.commonPrefixes)
    ensures o.delimiter == "" ==> r.commonPrefixes == []
    ensures o.delimiter != "" ==>
              && Ascending(Less, r.commonPrefixes)
              && Elems(r.commonPrefixes) == PrefixesOf(o, Filter(rows, InRange(o)))
  {
    var all := ScanRows(rows, o);
    FilterMembers(rows, InRange(o));
    if o.delimiter == "" {
      r := PaginateFlat(all, o);
    } else {
      r := ListWithDelimiter(all, o);
    }
  }

  /** One more page of a walk that has come as far as `token`. */
  method NextOfWalk(rows: seq<Entry>, o: Options, token: string, seen: seq<Entry>)
    returns (more: seq<Entry>, next: string, truncated: bool)
    requires IsTable(rows)
    requires PageStart(Listed(rows, o), token) <= |Listed(rows, o)| && seen == Listed(rows, o)[..PageStart(Listed(rows, o), token)]
    ensures !truncated ==> more == Listed(rows, o)
    ensures truncated ==>
              && PageStart(Listed(rows, o), token) < PageStart(Listed(rows, o), next) <= |Listed(rows, o)|
              && more == Listed(rows, o)[..PageStart(Listed(rows, o), next)]
  {
    ListedIff(rows, o);
    WalkStep(Listed(rows, o), MaxKeys(o), token);
    more, next, truncated := NextObjects(rows, o, token);
    more := seen + more;
  }

  method NextObjects(rows: seq<Entry>, o: Options, token: string) returns (page: seq<Entry>, next: string, truncated: bool)
    ensures var r := Page(Listed(rows, o), token, MaxKeys(o));
            page == r.objects && next == r.nextToken && truncated == r.truncated
  {
    ListedIgnoresToken(rows, o, token);
    var r := ListObjects(rows, o.(token := token));
    return r.objects, r.nextToken, r.truncated;
  }

  /** Calling ListObjects again with each continuation token ends, and the pages put together are
      the whole listing in order, each object once. */
  method WalkPages(rows: seq<Entry>, o: Options) returns (walked: seq<Entry>)
    requires IsTable(rows)
    ensures walked == Listed(rows, o)
  {
    walked := [];
    var token := "";
    while true
      invariant PageStart(Listed(rows, o), token) <= |Listed(rows, o)|
      invariant walked == Listed(rows, o)[..PageStart(Listed(rows, o), token)]
      decreases |Listed(rows, o)| - PageStart(Listed(rows, o), token)
    {
      var truncated: bool;
      walked, token, truncated := NextOfWalk(rows, o, token, walked);
      if !truncated {
        return;
      }
    }
  }
}
