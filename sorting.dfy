/** Python's `list.sort(key=...)` / `sorted(...)` on an integer key, as a
    stable insertion sort over a sequence. */
module Sorting {
  import opened Query

  /** Places `x` after every element whose key is at most `key(x)`. */
  function InsertSorted<T>(s: seq<T>, x: T, key: T -> int): (r: seq<T>)
    requires NonDecreasing(s, key)
    ensures |r| == |s| + 1
    ensures multiset(r) == multiset(s) + multiset{x}
    ensures NonDecreasing(r, key)
  {
    if s == [] || key(s[|s| - 1]) <= key(x) then
      s + [x]
    else
      var last := s[|s| - 1];
      var init := s[..|s| - 1];
      assert s == init + [last];
      var t := InsertSorted(init, x, key);
      assert forall i :: 0 <= i < |t| ==> key(t[i]) <= key(last) by {
        forall i | 0 <= i < |t| ensures key(t[i]) <= key(last) {
          assert t[i] in multiset(t);
          assert t[i] in multiset(init) || t[i] == x;
        }
      }
      t + [last]
  }

  method SortBy<T>(s: seq<T>, key: T -> int) returns (r: seq<T>)
    ensures multiset(r) == multiset(s)
    ensures NonDecreasing(r, key)
  {
    r := [];
    var i := 0;
    while i < |s|
      invariant 0 <= i <= |s|
      invariant multiset(r) == multiset(s[..i])
      invariant NonDecreasing(r, key)
    {
      assert s[..i + 1] == s[..i] + [s[i]];
      r := InsertSorted(r, s[i], key);
      i := i + 1;
    }
    assert s[..|s|] == s;
  }
}
