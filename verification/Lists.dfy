/** The intrusive lists of `list.c`, as sequences. */
module Lists {
  ghost predicate NoDup<T>(s: seq<T>) { forall i, j :: 0 <= i < j < |s| ==> s[i] != s[j] }

  /** list_remove of an element known to be in the list. */
  function Without<T(==)>(s: seq<T>, x: T): seq<T> {
    if s == [] then []
    else if s[0] == x then s[1..]
    else [s[0]] + Without(s[1..], x)
  }

  lemma {:induction false} WithoutFacts<T>(s: seq<T>, x: T)
    requires NoDup(s)
    ensures NoDup(Without(s, x)) && forall y :: y in Without(s, x) <==> y in s && y != x
  {
    if s != [] {
      var r := s[1..];
      assert s == [s[0]] + r && forall y :: y in s <==> y == s[0] || y in r;
      forall i | 0 <= i < |r| ensures r[i] != s[0] { assert r[i] == s[i + 1]; }
      if s[0] != x {
        WithoutFacts(r, x);
        assert s[0] !in Without(r, x);
      }
    }
  }
}
