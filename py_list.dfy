/** The list operations the source relies on: list.index and list.remove. */
module PyList {
  /** list.index(x): where x first occurs. */
  function IndexOf<T(==)>(s: seq<T>, x: T): (i: nat)
    requires x in s
    ensures i < |s| && s[i] == x
    ensures forall j :: 0 <= j < i ==> s[j] != x
  {
    if s[0] == x then 0 else IndexOf(s[1..], x) + 1
  }

  /** list.remove(x): drop the first occurrence of x. */
  function RemoveFirst<T(==)>(s: seq<T>, x: T): (r: seq<T>)
    ensures x in s ==> multiset(r) == multiset(s) - multiset{x} && |r| == |s| - 1
    ensures x !in s ==> r == s
  {
    if x in s then
      var i := IndexOf(s, x);
      assert s == s[..i] + [x] + s[i + 1..];
      s[..i] + s[i + 1..]
    else s
  }

  /** Removing the value found at i takes out exactly position i when no
      earlier entry equals it. */
  lemma RemoveFirstAt<T>(s: seq<T>, i: nat)
    requires i < |s| && forall j :: 0 <= j < i ==> s[j] != s[i]
    ensures RemoveFirst(s, s[i]) == s[..i] + s[i + 1..]
  {
    var k := IndexOf(s, s[i]);
    assert s[k] == s[i];
  }
}
