/** The plain move-to-front list: what both the encoder's yy array and the
    decoder's two-level structure stand for. */
module MoveToFront {

  /** The list with the entry at n moved to the front. */
  function Front(s: seq<int>, n: nat): (t: seq<int>)
    requires n < |s|
    ensures |t| == |s|
  {
    [s[n]] + s[..n] + s[n + 1..]
  }

  ghost predicate Distinct(s: seq<int>) {
    forall i, j :: 0 <= i < j < |s| ==> s[i] != s[j]
  }

  lemma {:induction false} FrontAt(s: seq<int>, n: nat, i: nat)
    requires n < |s| && i < |s|
    ensures Front(s, n)[i] == if i == 0 then s[n] else if i <= n then s[i - 1] else s[i]
  {
  }

  lemma FrontMembers(s: seq<int>, n: nat)
    requires n < |s|
    ensures forall x :: x in Front(s, n) <==> x in s
  {
    var t := Front(s, n);
    forall x ensures x in t <==> x in s {
      if x in s {
        var i :| 0 <= i < |s| && s[i] == x;
        assert t[if i == n then 0 else if i < n then i + 1 else i] == x;
      }
    }
  }

  lemma {:induction false} FrontKeepsDistinct(s: seq<int>, n: nat)
    requires n < |s| && Distinct(s)
    ensures Distinct(Front(s, n)) && forall x :: x in Front(s, n) <==> x in s
  {
    FrontMembers(s, n);
  }
}
