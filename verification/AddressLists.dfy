/** Linked lists of addresses, without their links. */
module AddressLists {
  predicate Distinct(s: seq<nat>) {
    forall i, j :: 0 <= i < j < |s| ==> s[i] != s[j]
  }

  /** `list_del`: unlink h from the list it is on; a self-linked node is left alone. */
  function Unlink(s: seq<nat>, h: nat): (r: seq<nat>)
    ensures h !in r && (h !in s ==> r == s)
    ensures forall x :: x in r <==> x in s && x != h
    ensures |r| <= |s|
  {
    if s == [] then [] else if s[0] == h then Unlink(s[1..], h) else [s[0]] + Unlink(s[1..], h)
  }

  lemma {:induction false} UnlinkDistinct(s: seq<nat>, h: nat)
    requires Distinct(s)
    ensures Distinct(Unlink(s, h))
    ensures |Unlink(s, h)| == if h in s then |s| - 1 else |s|
  {
    if s != [] {
      UnlinkDistinct(s[1..], h);
      if s[0] == h {
        assert h !in s[1..];
      } else {
        assert s[0] !in s[1..];
        assert h in s <==> h in s[1..];
      }
    }
  }

  function Elements(s: seq<nat>): set<nat> { set x | x in s }

  lemma {:induction false} DistinctCount(s: seq<nat>)
    requires Distinct(s)
    ensures |Elements(s)| == |s|
  {
    if s != [] {
      var n := |s| - 1;
      DistinctCount(s[..n]);
      assert s[n] !in s[..n];
      assert Elements(s) == Elements(s[..n]) + {s[n]};
    }
  }
}
