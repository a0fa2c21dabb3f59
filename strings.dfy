/**
 * The two string operations of the Rust standard library the resolver is
 * built from: `str::strip_prefix` and `str::split_once` on a `char`.
 */
module Strings {
  import opened Wrappers

  /** `s.strip_prefix(prefix)`: what follows `prefix` in `s`, if `s` starts with it. */
  function StripPrefix(s: string, prefix: string): (r: Option<string>)
    ensures r.Some? <==> prefix <= s
    ensures r.Some? ==> s == prefix + r.value
  {
    if |prefix| <= |s| && s[..|prefix|] == prefix then Some(s[|prefix|..]) else None
  }

  /**
   * `s.split_once(sep)`: the text before the FIRST `sep` and everything after
   * it; `None` when `sep` does not occur in `s`.
   */
  function SplitOnce(s: string, sep: char): (r: Option<(string, string)>)
    ensures r.None? <==> sep !in s
    ensures r.Some? ==> s == r.value.0 + [sep] + r.value.1 && sep !in r.value.0
  {
    if |s| == 0 then None
    else if s[0] == sep then Some(([], s[1..]))
    else
      match SplitOnce(s[1..], sep)
      case None => None
      case Some((head, tail)) => Some(([s[0]] + head, tail))
  }

  /** Splitting is the inverse of joining on a separator the head does not contain. */
  lemma SplitOnceJoin(head: string, sep: char, tail: string)
    requires sep !in head
    ensures SplitOnce(head + [sep] + tail, sep) == Some((head, tail))
  {
    var s := head + [sep] + tail;
    assert s[|head|] == sep;
    var r := SplitOnce(s, sep);
    var (h, t) := r.value;
    assert forall i :: 0 <= i < |h| ==> s[i] == h[i];
    assert forall i :: 0 <= i < |head| ==> s[i] == head[i];
    assert s[|h|] == sep;
    assert |h| == |head|;
    assert h == s[..|head|] == head;
    assert t == s[|head| + 1..] == tail;
  }
}
