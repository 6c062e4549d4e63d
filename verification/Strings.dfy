/** Cutting text, as Rust's `str` does it. */
module Strings {
  import opened Decimal

  /** `str::strip_prefix`. */
  function StripPrefix(s: string, prefix: string): (r: Option<string>)
    ensures r.Some? ==> s == prefix + r.value
  {
    if prefix <= s then Some(s[|prefix|..]) else None
  }

  /** `str::ends_with`. */
  predicate EndsWith(s: string, suffix: string) {
    |suffix| <= |s| && s[|s| - |suffix|..] == suffix
  }

  /** `str::split_once`. */
  function SplitOnce(s: string, c: char): (r: Option<(string, string)>)
    ensures r.None? <==> c !in s
    ensures r.Some? ==> s == r.value.0 + [c] + r.value.1 && c !in r.value.0
  {
    if s == "" then None
    else if s[0] == c then Some(("", s[1..]))
    else
      match SplitOnce(s[1..], c)
      case None => None
      case Some((a, b)) => Some(([s[0]] + a, b))
  }

  lemma {:induction false} SplitOnceAt(a: string, c: char, b: string)
    requires c !in a
    ensures SplitOnce(a + [c] + b, c) == Some((a, b))
  {
    var s := a + [c] + b;
    if a == "" {
      assert s[1..] == b;
    } else {
      SplitOnceAt(a[1..], c, b);
      assert s[1..] == a[1..] + [c] + b;
      assert [a[0]] + a[1..] == a;
    }
  }
}
