/**
  The descending version sort the changelog uses for its labels. Version
  precedence itself belongs to Composer's semver library and is not modelled:
  it is an arbitrary relation `le` ("a has lower or equal precedence than b"),
  assumed to be a total preorder wherever ordering facts are stated.
 */
module VersionSort {

  /** Every two labels are comparable, and comparison is transitive. */
  ghost predicate TotalPreorder(le: (string, string) -> bool) {
    && (forall a, b :: le(a, b) || le(b, a))
    && (forall a, b, c :: le(a, b) && le(b, c) ==> le(a, c))
  }

  /** Every later element has lower or equal precedence than every earlier one. */
  ghost predicate Descending(le: (string, string) -> bool, s: seq<string>) {
    forall i, j :: 0 <= i < j < |s| ==> le(s[j], s[i])
  }

  /** No label occurs twice. */
  predicate Distinct(s: seq<string>) {
    forall i, j :: 0 <= i < j < |s| ==> s[i] != s[j]
  }

  lemma DistinctTail(s: seq<string>)
    requires Distinct(s) && s != []
    ensures Distinct(s[1..]) && s[0] !in s[1..]
  {
    forall i, j | 0 <= i < j < |s[1..]| ensures s[1..][i] != s[1..][j] {
      assert s[1..][i] == s[i + 1] && s[1..][j] == s[j + 1];
    }
  }

  lemma DistinctCons(x: string, t: seq<string>)
    requires Distinct(t) && x !in t
    ensures Distinct([x] + t)
  {
    var r := [x] + t;
    forall i, j | 0 <= i < j < |r| ensures r[i] != r[j] {
      assert r[j] == t[j - 1];
      if i > 0 {
        assert r[i] == t[i - 1];
      }
    }
  }

  /**
    Places `x` in front of the first element of `s` that does not rank above it,
    so that `x` goes before the labels of equal precedence.
   */
  function Insert(le: (string, string) -> bool, x: string, s: seq<string>): (r: seq<string>)
    ensures multiset(r) == multiset(s) + multiset{x}
    ensures |r| == |s| + 1
    ensures forall y :: y in r <==> y == x || y in s
    ensures Distinct(s) && x !in s ==> Distinct(r)
  {
    if s == [] then [x]
    else if le(s[0], x) then [x] + s
    else
      assert s == [s[0]] + s[1..];
      var t := Insert(le, x, s[1..]);
      assert Distinct(s) && x !in s ==> Distinct([s[0]] + t) by {
        if Distinct(s) && x !in s {
          DistinctTail(s);
          DistinctCons(s[0], t);
        }
      }
      [s[0]] + t
  }

  /**
    Composer's `Semver::rsort`: the labels from highest to lowest precedence.
    Labels of equal precedence keep their relative input order.
   */
  function RSort(le: (string, string) -> bool, s: seq<string>): (r: seq<string>)
    ensures multiset(r) == multiset(s)
    ensures |r| == |s|
    ensures forall y :: y in r <==> y in s
    ensures Distinct(s) ==> Distinct(r)
  {
    if s == [] then []
    else
      assert s == [s[0]] + s[1..];
      Insert(le, s[0], RSort(le, s[1..]))
  }

  lemma {:induction false} InsertDescending(le: (string, string) -> bool, x: string, s: seq<string>)
    requires TotalPreorder(le) && Descending(le, s)
    ensures Descending(le, Insert(le, x, s))
  {
    if s == [] {
    } else if le(s[0], x) {
      var r := [x] + s;
      forall i, j | 0 <= i < j < |r| ensures le(r[j], r[i]) {
        if i == 0 && j > 1 {
          assert le(s[j - 1], s[0]);
        }
      }
    } else {
      assert le(x, s[0]);
      var t := Insert(le, x, s[1..]);
      InsertDescending(le, x, s[1..]);
      forall j | 0 <= j < |t| ensures le(t[j], s[0]) {
        assert t[j] in t;
        if t[j] != x {
          var k :| 0 <= k < |s[1..]| && s[1..][k] == t[j];
          assert s[k + 1] == t[j];
        }
      }
      var r := [s[0]] + t;
      forall i, j | 0 <= i < j < |r| ensures le(r[j], r[i]) {
        if i > 0 {
          assert r[i] == t[i - 1] && r[j] == t[j - 1];
        }
      }
    }
  }

  /** The sorted labels go from highest to lowest precedence. */
  lemma {:induction false} RSortDescending(le: (string, string) -> bool, s: seq<string>)
    requires TotalPreorder(le)
    ensures Descending(le, RSort(le, s))
  {
    if s != [] {
      RSortDescending(le, s[1..]);
      InsertDescending(le, s[0], RSort(le, s[1..]));
    }
  }

  /** Sorting leaves an already sorted sequence exactly as it is. */
  lemma {:induction false} RSortOfDescending(le: (string, string) -> bool, s: seq<string>)
    requires Descending(le, s)
    ensures RSort(le, s) == s
  {
    if s != [] {
      assert Descending(le, s[1..]) by {
        forall i, j | 0 <= i < j < |s[1..]| ensures le(s[1..][j], s[1..][i]) {
          assert s[1..][j] == s[j + 1] && s[1..][i] == s[i + 1];
        }
      }
      RSortOfDescending(le, s[1..]);
      if |s| > 1 {
        assert le(s[1..][0], s[0]);
      }
      assert [s[0]] + s[1..] == s;
    }
  }

  /** Sorting twice is sorting once. */
  lemma RSortIdempotent(le: (string, string) -> bool, s: seq<string>)
    requires TotalPreorder(le)
    ensures RSort(le, RSort(le, s)) == RSort(le, s)
  {
    RSortDescending(le, s);
    RSortOfDescending(le, RSort(le, s));
  }
}
