/** `std::set` of addresses: a strictly ascending sequence, which its elements determine. */
module OrderedSet {
  import opened Wrappers

  predicate Ascending(s: seq<Address>) {
    forall i, j :: 0 <= i < j < |s| ==> s[i] < s[j]
  }

  /** Insertion; an element that is present stays single. */
  function Emplace(s: seq<Address>, a: Address): (r: seq<Address>)
    requires Ascending(s)
    ensures Ascending(r)
    ensures forall x :: x in r <==> x in s || x == a
  {
    if s == [] || a < s[0] then [a] + s
    else if a == s[0] then s
    else
      var rest := Emplace(s[1..], a);
      assert forall x :: x in s <==> x == s[0] || x in s[1..];
      assert forall x :: x in rest ==> s[0] < x;
      assert forall j :: 0 <= j < |rest| ==> rest[j] in rest;
      [s[0]] + rest
  }

  /** Only one ascending sequence has given elements. */
  lemma {:induction false} ElementsDetermine(s: seq<Address>, t: seq<Address>)
    requires Ascending(s) && Ascending(t) && forall x :: x in s <==> x in t
    ensures s == t
  {
    assert s != [] ==> s[0] in s;
    assert t != [] ==> t[0] in t;
    if s != [] {
      assert s[0] == t[0];
      forall x ensures x in s[1..] <==> x in t[1..] {
        assert x in s[1..] <==> x in s && x != s[0];
        assert x in t[1..] <==> x in t && x != t[0];
      }
      ElementsDetermine(s[1..], t[1..]);
    }
  }
}
