/** Strings in code-point order, and the sorted duplicate-free list of a collection of strings. */
module Ordering {
  predicate Less(a: string, b: string) {
    if b == "" then false
    else if a == "" then true
    else a[0] < b[0] || (a[0] == b[0] && Less(a[1..], b[1..]))
  }

  /** Python's order on strings: a proper prefix, or the smaller character at the first difference. */
  predicate BeforeInText(a: string, b: string) {
    exists k :: 0 <= k <= |a| && FirstDifference(a, b, k) && (k == |a| || a[k] < b[k])
  }

  predicate FirstDifference(a: string, b: string, k: nat) {
    && k <= |a| && k < |b| && (forall i :: 0 <= i < k ==> a[i] == b[i])
    && (k < |a| ==> a[k] != b[k])
  }

  lemma {:induction false} LessMeaning(a: string, b: string)
    ensures Less(a, b) <==> BeforeInText(a, b)
  {
    if a == "" {
      assert b != "" ==> FirstDifference(a, b, 0);
    } else if b != "" && a[0] != b[0] {
      assert FirstDifference(a, b, 0);
      assert forall k :: 0 <= k && FirstDifference(a, b, k) ==> k == 0;
    } else if b != "" {
      LessMeaning(a[1..], b[1..]);
      OneCharacterOn(a, b);
    }
  }

  lemma OneCharacterOn(a: string, b: string)
    requires a != "" && b != "" && a[0] == b[0]
    ensures BeforeInText(a, b) <==> BeforeInText(a[1..], b[1..])
  {
    forall k: nat
      ensures FirstDifference(a[1..], b[1..], k) <==> FirstDifference(a, b, k + 1)
    {
      assert forall i :: 0 <= i < |a| - 1 ==> a[1..][i] == a[i + 1];
      assert forall i :: 0 <= i < |b| - 1 ==> b[1..][i] == b[i + 1];
      if FirstDifference(a[1..], b[1..], k) {
        assert forall i :: 0 < i < k + 1 ==> a[i] == a[1..][i - 1] && b[i] == b[1..][i - 1];
      }
    }
    if k :| 0 <= k <= |a| - 1 && FirstDifference(a[1..], b[1..], k) && (k == |a| - 1 || a[1..][k] < b[1..][k]) {
      assert FirstDifference(a, b, k + 1);
    }
    if k :| 0 <= k <= |a| && FirstDifference(a, b, k) && (k == |a| || a[k] < b[k]) {
      assert k > 0 && FirstDifference(a[1..], b[1..], k - 1);
    }
  }

  lemma {:induction false} Irreflexive(a: string)
    ensures !Less(a, a)
  {
    if a != "" {
      Irreflexive(a[1..]);
    }
  }

  lemma {:induction false} Trichotomy(a: string, b: string)
    ensures !Less(a, a)
    ensures Less(a, b) || a == b || Less(b, a)
    ensures !(Less(a, b) && Less(b, a))
  {
    Irreflexive(a);
    if a != "" && b != "" && a[0] == b[0] {
      Trichotomy(a[1..], b[1..]);
      assert a == [a[0]] + a[1..] && b == [b[0]] + b[1..];
    }
  }

  lemma {:induction false} Transitive(a: string, b: string, c: string)
    requires Less(a, b) && Less(b, c)
    ensures Less(a, c)
  {
    if a != "" && a[0] == b[0] && b[0] == c[0] {
      Transitive(a[1..], b[1..], c[1..]);
    }
  }

  predicate Increasing(s: seq<string>) {
    forall i, j :: 0 <= i < j < |s| ==> Less(s[i], s[j])
  }

  function Insert(x: string, s: seq<string>): seq<string> {
    if s == [] then [x]
    else if x == s[0] then s
    else if Less(x, s[0]) then [x] + s
    else [s[0]] + Insert(x, s[1..])
  }

  /** Python's `sorted(set(xs))`. */
  function SortedSet(xs: seq<string>): seq<string> {
    if xs == [] then [] else Insert(xs[|xs| - 1], SortedSet(xs[..|xs| - 1]))
  }

  lemma {:induction false} InsertSorts(x: string, s: seq<string>)
    requires Increasing(s)
    ensures Increasing(Insert(x, s))
    ensures forall y :: y in Insert(x, s) <==> y == x || y in s
  {
    if s != [] && x != s[0] {
      Trichotomy(x, s[0]);
      if Less(x, s[0]) {
        forall j | 0 < j < |s|
          ensures Less(x, s[j])
        {
          Transitive(x, s[0], s[j]);
        }
      } else {
        InsertSorts(x, s[1..]);
        var t := Insert(x, s[1..]);
        forall j | 0 <= j < |t|
          ensures Less(s[0], t[j])
        {
          assert t[j] in t;
          if t[j] != x {
            assert t[j] in s[1..];
          }
        }
      }
    }
  }

  /** The result is strictly increasing and has exactly the elements of the input. */
  lemma {:induction false} SortedSetMeaning(xs: seq<string>)
    ensures Increasing(SortedSet(xs))
    ensures forall y :: y in SortedSet(xs) <==> y in xs
  {
    if xs != [] {
      SortedSetMeaning(xs[..|xs| - 1]);
      InsertSorts(xs[|xs| - 1], SortedSet(xs[..|xs| - 1]));
    }
  }

  lemma SameEmptiness(a: seq<string>, b: seq<string>)
    requires forall y :: y in a <==> y in b
    ensures a == [] <==> b == []
  {
    if a != [] {
      assert a[0] in a;
    }
    if b != [] {
      assert b[0] in b;
    }
  }

  /** A strictly increasing list is determined by its elements. */
  lemma {:induction false} IncreasingIsUnique(a: seq<string>, b: seq<string>)
    requires Increasing(a) && Increasing(b)
    requires forall y :: y in a <==> y in b
    ensures a == b
  {
    SameEmptiness(a, b);
    if a != [] {
      assert a[0] in b;
      assert b[0] in a;
      FirstIsLeast(a, b[0]);
      FirstIsLeast(b, a[0]);
      Trichotomy(a[0], b[0]);
      forall y
        ensures y in a[1..] <==> y in b[1..]
      {
        Trichotomy(a[0], a[0]);
        assert y in a <==> y == a[0] || y in a[1..];
        assert y in b <==> y == b[0] || y in b[1..];
        if a[0] in a[1..] { FirstOnlyOnce(a); }
        if b[0] in b[1..] { FirstOnlyOnce(b); }
      }
      IncreasingIsUnique(a[1..], b[1..]);
    }
  }

  lemma FirstIsLeast(a: seq<string>, y: string)
    requires Increasing(a) && y in a
    ensures y == a[0] || Less(a[0], y)
  {
    var i :| 0 <= i < |a| && a[i] == y;
  }

  lemma FirstOnlyOnce(a: seq<string>)
    requires Increasing(a) && a != []
    ensures a[0] !in a[1..]
  {
    Trichotomy(a[0], a[0]);
  }

  /** Order and repetition in the input do not matter. */
  lemma SortedSetDependsOnElements(xs: seq<string>, ys: seq<string>)
    requires forall y :: y in xs <==> y in ys
    ensures SortedSet(xs) == SortedSet(ys)
  {
    SortedSetMeaning(xs);
    SortedSetMeaning(ys);
    IncreasingIsUnique(SortedSet(xs), SortedSet(ys));
  }
}
