/** Byte-wise string order and sorting by a strict total order. */
module Orders {

  // ---------------------------------------------------------------- strings

  predicate Less(a: string, b: string) {
    if b == "" then false
    else if a == "" then true
    else if a[0] != b[0] then a[0] < b[0]
    else Less(a[1..], b[1..])
  }

  predicate AtMost(a: string, b: string) {
    a == b || Less(a, b)
  }

  lemma {:induction false} LessIrreflexive(a: string)
    ensures !Less(a, a)
  {
    if a != "" { LessIrreflexive(a[1..]); }
  }

  lemma {:induction false} LessTransitive(a: string, b: string, c: string)
    requires Less(a, b) && Less(b, c)
    ensures Less(a, c)
  {
    if a != "" && a[0] == b[0] && b[0] == c[0] { LessTransitive(a[1..], b[1..], c[1..]); }
  }

  lemma {:induction false} LessConnected(a: string, b: string)
    requires a != b
    ensures Less(a, b) || Less(b, a)
  {
    if a != "" && b != "" && a[0] == b[0] {
      assert a == [a[0]] + a[1..] && b == [b[0]] + b[1..];
      LessConnected(a[1..], b[1..]);
    }
  }

  /** Where two strings first differ, the smaller character decides. */
  lemma {:induction false} DifferenceDecides(a: string, b: string, i: nat)
    requires i < |a| && i < |b| && a[i] != b[i] && a[..i] == b[..i]
    ensures Less(a, b) <==> a[i] < b[i]
  {
    if i > 0 {
      assert a[0] == a[..i][0] && b[0] == b[..i][0];
      assert a[1..][..i - 1] == a[..i][1..] && b[1..][..i - 1] == b[..i][1..];
      DifferenceDecides(a[1..], b[1..], i - 1);
    }
  }

  /** Where there is no difference, the shorter string comes first. */
  lemma {:induction false} PrefixDecides(a: string, b: string)
    requires a <= b
    ensures (Less(a, b) <==> a != b) && !Less(b, a)
  {
    if a != "" {
      assert a[0] == b[0] && a[1..] <= b[1..];
      assert a == [a[0]] + a[1..] && b == [b[0]] + b[1..];
      PrefixDecides(a[1..], b[1..]);
    }
  }

  /** A string is never smaller than one of its prefixes. */
  lemma {:induction false} PrefixAtMost(p: string, s: string)
    requires p <= s
    ensures AtMost(p, s)
  {
    if p != "" && p != s {
      assert p[1..] <= s[1..];
      assert p == [p[0]] + p[1..] && s == [s[0]] + s[1..];
      PrefixAtMost(p[1..], s[1..]);
    }
  }

  // ---------------------------------------------------------------- orders on a set

  ghost predicate StrictTotalOn<T(!new)>(less: (T, T) -> bool, s: set<T>) {
    && (forall x | x in s :: !less(x, x))
    && (forall x, y, z | x in s && y in s && z in s && less(x, y) && less(y, z) :: less(x, z))
    && (forall x, y | x in s && y in s && x != y :: less(x, y) || less(y, x))
  }

  function Elems<T>(s: seq<T>): set<T> {
    set x | x in s
  }

  ghost predicate NoDuplicates<T>(s: seq<T>) {
    forall i, j | 0 <= i < j < |s| :: s[i] != s[j]
  }

  ghost predicate Ascending<T>(less: (T, T) -> bool, s: seq<T>) {
    forall i, j | 0 <= i < j < |s| :: less(s[i], s[j])
  }

  lemma StringsTotal(s: set<string>)
    ensures StrictTotalOn(Less, s)
  {
    forall x | x in s ensures !Less(x, x) { LessIrreflexive(x); }
    forall x, y, z | x in s && y in s && z in s && Less(x, y) && Less(y, z) ensures Less(x, z) { LessTransitive(x, y, z); }
    forall x, y | x in s && y in s && x != y ensures Less(x, y) || Less(y, x) { LessConnected(x, y); }
  }

  /** The elements of a set in ascending order are one sequence. */
  lemma {:induction false} AscendingUnique<T(!new)>(less: (T, T) -> bool, a: seq<T>, b: seq<T>)
    requires Ascending(less, a) && Ascending(less, b) && Elems(a) == Elems(b) && StrictTotalOn(less, Elems(a))
    ensures a == b
  {
    assert b != [] ==> b[0] in Elems(a);
    if a != [] {
      assert a[0] in Elems(a);
      assert b != [] && b[0] in Elems(a) && a[0] in Elems(b);
      var i :| 0 <= i < |b| && b[i] == a[0];
      var j :| 0 <= j < |a| && a[j] == b[0];
      assert a[0] == b[0];
      forall x
        ensures x in Elems(a[1..]) <==> x in Elems(b[1..])
      {
        TailElems(less, a, x);
        TailElems(less, b, x);
      }
      assert Elems(a[1..]) <= Elems(a);
      AscendingUnique(less, a[1..], b[1..]);
      assert a == [a[0]] + a[1..] && b == [b[0]] + b[1..];
    }
  }

  lemma TailElems<T(!new)>(less: (T, T) -> bool, s: seq<T>, x: T)
    requires s != [] && Ascending(less, s) && StrictTotalOn(less, Elems(s))
    ensures x in Elems(s[1..]) <==> x in Elems(s) && x != s[0]
  {
    assert s == [s[0]] + s[1..];
    assert s[0] in Elems(s);
    if x in Elems(s[1..]) {
      var i :| 0 <= i < |s[1..]| && s[1..][i] == x;
      assert less(s[0], s[i + 1]);
    }
  }

  /** In an ascending sequence the order of elements is the order of their places. */
  lemma IndexOrder<T(!new)>(less: (T, T) -> bool, s: seq<T>, i: nat, j: nat)
    requires Ascending(less, s) && StrictTotalOn(less, Elems(s)) && i < |s| && j < |s|
    ensures less(s[i], s[j]) <==> i < j
    ensures s[i] == s[j] <==> i == j
  {
    assert s[i] in Elems(s) && s[j] in Elems(s);
  }

  lemma {:induction false} DistinctCount<T(!new)>(less: (T, T) -> bool, s: seq<T>)
    requires Ascending(less, s) && StrictTotalOn(less, Elems(s))
    ensures |Elems(s)| == |s|
  {
    if s != [] {
      var init, last := s[..|s| - 1], s[|s| - 1];
      assert s == init + [last];
      assert Elems(s) == Elems(init) + {last};
      forall j | 0 <= j < |init|
        ensures init[j] != last
      {
        IndexOrder(less, s, j, |s| - 1);
      }
      DistinctCount(less, init);
    }
  }

  // ---------------------------------------------------------------- sorting

  function Insert<T>(less: (T, T) -> bool, x: T, s: seq<T>): (r: seq<T>)
    ensures |r| == |s| + 1
  {
    if s == [] then [x]
    else if less(x, s[0]) then [x] + s
    else [s[0]] + Insert(less, x, s[1..])
  }

  function SortBy<T>(less: (T, T) -> bool, s: seq<T>): (r: seq<T>)
    ensures |r| == |s|
  {
    if s == [] then [] else Insert(less, s[0], SortBy(less, s[1..]))
  }

  /** Insertion puts the new element at one place and keeps the rest. */
  lemma {:induction false} InsertPlace<T(!new)>(less: (T, T) -> bool, x: T, s: seq<T>) returns (p: nat)
    ensures p <= |s| && Insert(less, x, s) == s[..p] + [x] + s[p..]
    ensures forall i | 0 <= i < p :: !less(x, s[i])
    ensures p < |s| ==> less(x, s[p])
  {
    if s == [] || less(x, s[0]) {
      p := 0;
    } else {
      var q := InsertPlace(less, x, s[1..]);
      p := q + 1;
      assert s[..p] == [s[0]] + s[1..][..q] && s[p..] == s[1..][q..];
    }
  }

  lemma TotalOnSubset<T(!new)>(less: (T, T) -> bool, s: set<T>, t: set<T>)
    requires StrictTotalOn(less, s) && t <= s
    ensures StrictTotalOn(less, t)
  {
  }

  lemma HeadBelow<T(!new)>(less: (T, T) -> bool, x: T, s: seq<T>)
    requires s != [] && Ascending(less, s) && x !in s && StrictTotalOn(less, Elems(s) + {x})
    ensures less(x, s[0]) ==> forall y | y in Elems(s) :: less(x, y)
    ensures !less(x, s[0]) ==> forall y | y in Elems(s[1..]) + {x} :: less(s[0], y)
  {
    assert s[0] in Elems(s);
    assert forall y | y in Elems(s[1..]) :: y in Elems(s) && less(s[0], y);
    forall y | y in Elems(s)
      ensures y == s[0] || less(s[0], y)
    {
      var i :| 0 <= i < |s| && s[i] == y;
    }
  }

  lemma ElemsCons<T>(x: T, s: seq<T>)
    ensures Elems([x] + s) == {x} + Elems(s)
  {
  }

  lemma ElemsSnoc<T>(s: seq<T>, x: T)
    ensures Elems(s + [x]) == Elems(s) + {x}
    ensures NoDuplicates(s) && x !in Elems(s) ==> NoDuplicates(s + [x])
  {
    assert forall y :: y in s + [x] <==> y in s || y == x;
  }

  lemma AscendingCons<T>(less: (T, T) -> bool, x: T, s: seq<T>)
    requires Ascending(less, s) && forall y | y in Elems(s) :: less(x, y)
    ensures Ascending(less, [x] + s)
  {
  }

  lemma {:induction false} InsertElems<T>(less: (T, T) -> bool, x: T, s: seq<T>)
    ensures Elems(Insert(less, x, s)) == Elems(s) + {x}
  {
    if s != [] {
      assert s == [s[0]] + s[1..];
      ElemsCons(s[0], s[1..]);
      ElemsCons(x, s);
      InsertElems(less, x, s[1..]);
      ElemsCons(s[0], Insert(less, x, s[1..]));
    }
  }

  lemma {:induction false} InsertAscending<T(!new)>(less: (T, T) -> bool, x: T, s: seq<T>)
    requires Ascending(less, s) && x !in s && StrictTotalOn(less, Elems(s) + {x})
    ensures Ascending(less, Insert(less, x, s))
  {
    if s != [] {
      HeadBelow(less, x, s);
      if less(x, s[0]) {
        AscendingCons(less, x, s);
      } else {
        TotalOnSubset(less, Elems(s) + {x}, Elems(s[1..]) + {x});
        InsertAscending(less, x, s[1..]);
        InsertElems(less, x, s[1..]);
        AscendingCons(less, s[0], Insert(less, x, s[1..]));
      }
    }
  }

  lemma {:induction false} SortByAscending<T(!new)>(less: (T, T) -> bool, s: seq<T>)
    requires NoDuplicates(s) && StrictTotalOn(less, Elems(s))
    ensures Ascending(less, SortBy(less, s)) && Elems(SortBy(less, s)) == Elems(s)
  {
    if s != [] {
      assert s == [s[0]] + s[1..];
      assert Elems(s) == Elems(s[1..]) + {s[0]};
      SortByAscending(less, s[1..]);
      assert s[0] !in Elems(s[1..]);
      InsertElems(less, s[0], SortBy(less, s[1..]));
      InsertAscending(less, s[0], SortBy(less, s[1..]));
    }
  }
}
