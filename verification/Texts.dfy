/** Texts as the bytes the Rust code works on. */
module Texts {
  import opened Bytes

  type Text = seq<u8>

  /** Where a byte first occurs, or the length of the text. */
  function IndexOf(t: Text, b: u8): (i: nat)
    ensures i <= |t| && b !in t[..i] && (i < |t| ==> t[i] == b)
    ensures b in t <==> i < |t|
  {
    if t == [] || t[0] == b then 0
    else
      var i := IndexOf(t[1..], b);
      assert t == [t[0]] + t[1..];
      assert t[..i + 1] == [t[0]] + t[1..][..i];
      i + 1
  }

  /** What stands before the first of its kind and what behind it. */
  lemma FirstAfter(a: Text, c: u8, rest: Text)
    requires c !in a
    ensures var t := a + [c] + rest;
            c in t && IndexOf(t, c) == |a| && t[..|a|] == a && t[|a| + 1..] == rest
  {
    var t := a + [c] + rest;
    assert t[|a|] == c;
    var i := IndexOf(t, c);
    assert forall j :: 0 <= j < |a| ==> t[j] == a[j];
    assert forall j :: 0 <= j < i ==> t[..i][j] == t[j];
  }
}
