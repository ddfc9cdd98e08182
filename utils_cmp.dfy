/** utils/cmp.go: `Contains`, a linear search with an early return. */
module UtilsCmp {

  /**
   * True exactly when some element of s equals x.  In particular the empty
   * list contains nothing, s + [x] contains x, and an element of s is also
   * an element of every extension s + t.
   */
  method Contains(s: seq<string>, x: string) returns (found: bool)
    ensures found <==> exists i :: 0 <= i < |s| && s[i] == x
  {
    var i := 0;
    while i < |s|
      invariant 0 <= i <= |s|
      invariant forall j :: 0 <= j < i ==> s[j] != x
    {
      if s[i] == x {
        return true;
      }
      i := i + 1;
    }
    return false;
  }
}
