/** JavaScript's ordering of strings (`<` on two strings, and the default
    comparison of `Array.prototype.sort`): character by character, a
    proper prefix coming first. Dafny's own `<` on strings means "proper
    prefix", so the order is defined here. */
module StringOrder {

  predicate LexLess(a: string, b: string)
    decreases |a|
  {
    if |a| == 0 then |b| > 0
    else if |b| == 0 then false
    else if a[0] == b[0] then LexLess(a[1..], b[1..])
    else a[0] < b[0]
  }

  predicate LexLe(a: string, b: string)
  {
    a == b || LexLess(a, b)
  }

  lemma {:induction false} LexLessIrreflexive(a: string)
    ensures !LexLess(a, a)
    decreases |a|
  {
    if |a| > 0 {
      LexLessIrreflexive(a[1..]);
    }
  }

  lemma {:induction false} LexLessAsymmetric(a: string, b: string)
    ensures !(LexLess(a, b) && LexLess(b, a))
    decreases |a|
  {
    if |a| > 0 && |b| > 0 && a[0] == b[0] {
      LexLessAsymmetric(a[1..], b[1..]);
    }
  }

  /** Any two strings are comparable, and in exactly one way. */
  lemma {:induction false} LexTrichotomy(a: string, b: string)
    ensures LexLess(a, b) || a == b || LexLess(b, a)
    ensures a == b ==> !LexLess(a, b) && !LexLess(b, a)
    ensures !(LexLess(a, b) && LexLess(b, a))
    decreases |a|
  {
    LexLessIrreflexive(a);
    LexLessAsymmetric(a, b);
    if |a| > 0 && |b| > 0 && a[0] == b[0] {
      LexTrichotomy(a[1..], b[1..]);
      if a[1..] == b[1..] {
        assert a == [a[0]] + a[1..] && b == [b[0]] + b[1..];
      }
    }
  }

  lemma {:induction false} LexLessTransitive(a: string, b: string, c: string)
    requires LexLess(a, b) && LexLess(b, c)
    ensures LexLess(a, c)
    decreases |a|
  {
    if |a| > 0 && a[0] == b[0] && b[0] == c[0] {
      LexLessTransitive(a[1..], b[1..], c[1..]);
    }
  }

  lemma LexLeAntisymmetric(a: string, b: string)
    requires LexLe(a, b) && LexLe(b, a)
    ensures a == b
  {
    LexLessAsymmetric(a, b);
  }

  lemma LexLeTotal(a: string, b: string)
    ensures LexLe(a, b) || LexLe(b, a)
  {
    LexTrichotomy(a, b);
  }

  /** Every earlier element is at most every later one. */
  predicate Sorted(s: seq<string>)
  {
    forall i, j :: 0 <= i < j < |s| ==> LexLe(s[i], s[j])
  }

  /** `x` placed before the first element it does not exceed. */
  function Insert(x: string, s: seq<string>): (r: seq<string>)
    requires Sorted(s)
    ensures Sorted(r)
    ensures multiset(r) == multiset(s) + multiset{x}
    ensures |r| == |s| + 1
    decreases |s|
  {
    if |s| == 0 then [x]
    else if LexLe(x, s[0]) then
      assert forall j :: 0 < j < |[x] + s| ==> LexLe(x, ([x] + s)[j]) by {
        forall j | 0 < j < |[x] + s| ensures LexLe(x, ([x] + s)[j]) {
          if j > 1 && x != s[0] && s[0] != s[j - 1] {
            LexLessTransitive(x, s[0], s[j - 1]);
          }
        }
      }
      [x] + s
    else
      var rest := Insert(x, s[1..]);
      assert multiset(s) == multiset([s[0]] + s[1..]) by { assert s == [s[0]] + s[1..]; }
      assert LexLe(s[0], x) by { LexLeTotal(x, s[0]); }
      assert forall j :: 0 <= j < |rest| ==> LexLe(s[0], rest[j]) by {
        forall j | 0 <= j < |rest| ensures LexLe(s[0], rest[j]) {
          assert rest[j] in multiset(rest);
          if rest[j] != x {
            assert rest[j] in multiset(s[1..]);
            var k :| 0 <= k < |s[1..]| && s[1..][k] == rest[j];
            assert s[k + 1] == rest[j];
          }
        }
      }
      [s[0]] + rest
  }

  /** Insertion sort: the sorted rearrangement of `s`. */
  function SortStrings(s: seq<string>): (r: seq<string>)
    ensures Sorted(r)
    ensures multiset(r) == multiset(s)
    decreases |s|
  {
    if |s| == 0 then []
    else
      assert s == [s[0]] + s[1..];
      Insert(s[0], SortStrings(s[1..]))
  }

  lemma SameTails(a: seq<string>, b: seq<string>)
    requires |a| > 0 && |b| > 0 && a[0] == b[0]
    requires multiset(a) == multiset(b)
    ensures multiset(a[1..]) == multiset(b[1..])
  {
    assert a == [a[0]] + a[1..] && b == [b[0]] + b[1..];
    assert multiset(a) == multiset{a[0]} + multiset(a[1..]);
    assert multiset(b) == multiset{b[0]} + multiset(b[1..]);
    forall z ensures multiset(a[1..])[z] == multiset(b[1..])[z] {
      assert multiset(a)[z] == multiset{a[0]}[z] + multiset(a[1..])[z];
      assert multiset(b)[z] == multiset{b[0]}[z] + multiset(b[1..])[z];
    }
  }

  /** A sorted rearrangement is unique, so any sorting algorithm that
      orders by this comparison yields exactly SortStrings. */
  lemma {:induction false} SortedUnique(a: seq<string>, b: seq<string>)
    requires Sorted(a) && Sorted(b)
    requires multiset(a) == multiset(b)
    ensures a == b
    decreases |a|
  {
    assert |a| == |multiset(a)| == |multiset(b)| == |b|;
    if |a| > 0 {
      assert a[0] in multiset(b);
      var i :| 0 <= i < |b| && b[i] == a[0];
      assert b[0] in multiset(a);
      var j :| 0 <= j < |a| && a[j] == b[0];
      assert LexLe(b[0], a[0]) by { if i > 0 { assert LexLe(b[0], b[i]); } }
      assert LexLe(a[0], b[0]) by { if j > 0 { assert LexLe(a[0], a[j]); } }
      LexLeAntisymmetric(a[0], b[0]);
      SameTails(a, b);
      SortedUnique(a[1..], b[1..]);
    }
  }

  /** Sorting keeps exactly the elements it was given. */
  lemma SortStringsMembers(s: seq<string>, x: string)
    ensures x in SortStrings(s) <==> x in s
  {
    var r := SortStrings(s);
    assert x in r <==> x in multiset(r);
    assert x in s <==> x in multiset(s);
  }
}
