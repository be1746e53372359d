/** Ascending sequences are determined by their members. */
module Ordered {
  import opened RecurrenceDates

  function Members(s: seq<int>): set<int> { set x | x in s }

  lemma {:induction false} AscendingSize(s: seq<int>)
    requires Ascending(s)
    ensures |Members(s)| == |s|
  {
    if s != [] {
      var init, last := s[..|s| - 1], s[|s| - 1];
      AscendingSize(init);
      assert s == init + [last];
      assert Members(s) == Members(init) + {last};
      assert last !in init;
    }
  }

  lemma SubsetSize(a: set<int>, b: set<int>)
    requires a <= b
    ensures |a| <= |b|
  {
    assert b == a + (b - a);
  }

  /** Leaving out a member makes an ascending sequence shorter. */
  lemma ShorterWithout(s: seq<int>, t: seq<int>, x: int)
    requires Ascending(s) && Ascending(t)
    requires x in s && x !in t && forall y | y in t :: y in s
    ensures |t| < |s|
  {
    AscendingSize(s);
    AscendingSize(t);
    SubsetSize(Members(t) + {x}, Members(s));
  }

  lemma {:induction false} AscendingUnique(s: seq<int>, t: seq<int>)
    requires Ascending(s) && Ascending(t)
    requires forall x :: x in s <==> x in t
    ensures s == t
  {
    assert s != [] ==> s[0] in s;
    assert t != [] ==> t[0] in t;
    if s != [] && t != [] {
      forall x ensures x in s[1..] <==> x in t[1..] {
        assert x in s <==> x == s[0] || x in s[1..];
        assert x in t <==> x == t[0] || x in t[1..];
      }
      AscendingUnique(s[1..], t[1..]);
    }
  }
}
