/** `strings.Cut` and `strings.Join(_, "")` from Go's standard library, on bytes. */
module Strings {
  import opened Go

  /**
   * `strings.Cut(s, sep)` for a one-byte separator: the text before and
   * after the first `sep`, and whether there was one. Without a separator
   * the whole of `s` is the "before" part and "after" is empty.
   */
  function Cut(s: seq<Byte>, sep: Byte): (r: (seq<Byte>, seq<Byte>, bool))
    ensures r.2 ==> s == r.0 + [sep] + r.1 && sep !in r.0
    ensures !r.2 ==> r.0 == s && r.1 == [] && sep !in s
  {
    if |s| == 0 then (s, [], false)
    else if s[0] == sep then ([], s[1..], true)
    else
      var rest := Cut(s[1..], sep);
      assert s == [s[0]] + s[1..];
      ([s[0]] + rest.0, rest.1, rest.2)
  }

  /** `Cut` splits at the first separator: any split whose left part has no separator is the one it returns. */
  lemma CutAt(s: seq<Byte>, sep: Byte, before: seq<Byte>, after: seq<Byte>)
    requires s == before + [sep] + after && sep !in before
    ensures Cut(s, sep) == (before, after, true)
  {
    var r := Cut(s, sep);
    assert s[|before|] == sep;
    assert r.2;
    assert s[|r.0|] == sep;
    assert |r.0| == |before|;
    assert r.0 == s[..|before|] == before;
    assert r.1 == s[|before| + 1..] == after;
  }

  /** The sum of the lengths of `elems`. */
  function TotalLength(elems: seq<seq<Byte>>): nat
  {
    if |elems| == 0 then 0 else TotalLength(elems[..|elems| - 1]) + |elems[|elems| - 1]|
  }

  /** `strings.Join(elems, "")`: the elements concatenated in order. */
  function Join(elems: seq<seq<Byte>>): (s: seq<Byte>)
    ensures |s| == TotalLength(elems)
  {
    if |elems| == 0 then [] else Join(elems[..|elems| - 1]) + elems[|elems| - 1]
  }

  /** Element `k` sits in the joined string right after the elements before it. */
  lemma {:induction false} JoinElement(elems: seq<seq<Byte>>, k: nat)
    requires k < |elems|
    ensures TotalLength(elems[..k]) + |elems[k]| <= |Join(elems)|
    ensures Join(elems)[TotalLength(elems[..k])..TotalLength(elems[..k]) + |elems[k]|] == elems[k]
    decreases |elems|
  {
    var n := |elems| - 1;
    assert Join(elems) == Join(elems[..n]) + elems[n];
    if k == n {
      assert Join(elems)[|Join(elems[..n])|..] == elems[n];
    } else {
      assert elems[..n][..k] == elems[..k];
      assert elems[..n][k] == elems[k];
      JoinElement(elems[..n], k);
      var lo := TotalLength(elems[..k]);
      assert Join(elems)[lo..lo + |elems[k]|] == Join(elems[..n])[lo..lo + |elems[k]|];
    }
  }
}
