/**
 * Argument splitting of the MFMT command: .NET's `Split(new[] { ' ' }, 2)`,
 * which cuts the text at the first space only and keeps every later space
 * in the second part.
 */
module Arguments {
  import opened Wrappers

  /** The index of the first occurrence of `c` in `s`, or `None` when `c` does not occur. */
  function IndexOf(s: string, c: char): (r: Option<nat>)
    ensures r.None? <==> c !in s
    ensures r.Some? ==> r.value < |s| && s[r.value] == c && c !in s[..r.value]
  {
    if s == [] then None
    else if s[0] == c then Some(0)
    else match IndexOf(s[1..], c)
      case None => None
      case Some(i) =>
        assert s[..i + 1] == [s[0]] + s[1..][..i];
        Some(i + 1)
  }

  /**
   * Cutting `a + [c] + b` at its first `c` gives back `a` and `b` when `a`
   * has no `c`.
   */
  lemma IndexOfFirst(a: string, c: char, b: string)
    requires c !in a
    ensures IndexOf(a + [c] + b, c) == Some(|a|)
    ensures (a + [c] + b)[..|a|] == a && (a + [c] + b)[|a| + 1..] == b
  {
    var s := a + [c] + b;
    assert s[|a|] == c;
  }

  /**
   * `s.Split(new[] { ' ' }, 2)`: one part (the whole text) when there is no
   * space, otherwise the text before the first space and everything after it.
   */
  function SplitAtFirstSpace(s: string): (parts: seq<string>)
    ensures |parts| == 1 || |parts| == 2
    ensures |parts| == 2 <==> ' ' in s
    ensures |parts| == 1 ==> parts[0] == s
    ensures |parts| == 2 ==> ' ' !in parts[0] && parts[0] + " " + parts[1] == s
  {
    match IndexOf(s, ' ')
    case None => [s]
    case Some(i) =>
      assert s == s[..i] + " " + s[i + 1..];
      [s[..i], s[i + 1..]]
  }

  /**
   * The split is the inverse of joining with one space: any text whose first
   * part has no space splits back into exactly that first part and the rest.
   */
  lemma {:induction false} SplitUnique(first: string, rest: string)
    requires ' ' !in first
    ensures SplitAtFirstSpace(first + " " + rest) == [first, rest]
  {
    var s := first + " " + rest;
    assert s[|first|] == ' ';
    var parts := SplitAtFirstSpace(s);
    var p, q := parts[0], parts[1];
    assert |p| == |first|;
    assert p == s[..|p|] == first;
    assert q == s[|p| + 1..] == rest;
  }

  /** The four shapes that decide the part count. */
  lemma SplitExamples()
    ensures SplitAtFirstSpace("a") == ["a"]
    ensures SplitAtFirstSpace("") == [""]
    ensures SplitAtFirstSpace("a ") == ["a", ""]
    ensures SplitAtFirstSpace(" a") == ["", "a"]
  {
    assert "a " == "a" + " " + "";
    SplitUnique("a", "");
    SplitUnique("", "a");
  }
}
