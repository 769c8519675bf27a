/**
 * The Python string operations the result loader relies on: `sub in s`,
 * `s.endswith(suffix)` and `s.split(sep)[0]`. Strings are sequences of
 * Unicode scalar values; a Python `str` holding a lone surrogate has no
 * counterpart here.
 */
module PyStr {
  import opened Wrappers

  /** `sub` occurs in `s` starting at index `i`. */
  predicate OccursAt(s: string, sub: string, i: nat) {
    i + |sub| <= |s| && s[i..i + |sub|] == sub
  }

  /** The first index at or after `from` where `sub` occurs in `s`. */
  function FindFrom(s: string, sub: string, from: nat): (r: Option<nat>)
    ensures r.Some? ==> from <= r.value && OccursAt(s, sub, r.value)
    ensures r.Some? ==> forall j: nat :: from <= j < r.value ==> !OccursAt(s, sub, j)
    ensures r.None? ==> forall j: nat :: from <= j ==> !OccursAt(s, sub, j)
    decreases |s| - from
  {
    if from + |sub| > |s| then None
    else if s[from..from + |sub|] == sub then Some(from)
    else FindFrom(s, sub, from + 1)
  }

  /** Python's `sub in s`: true exactly when `sub` occurs somewhere in `s`. */
  function Contains(s: string, sub: string): (b: bool)
    ensures b <==> exists i: nat :: OccursAt(s, sub, i)
  {
    FindFrom(s, sub, 0).Some?
  }

  /** The empty string is contained in every string, as in Python. */
  lemma ContainsEmpty(s: string)
    ensures Contains(s, "")
  {
    assert OccursAt(s, "", 0);
  }

  /** Python's `s.endswith(suffix)`: `s` is some string followed by `suffix`. */
  function EndsWith(s: string, suffix: string): (b: bool)
    ensures b <==> exists t: string {:trigger t + suffix} :: s == t + suffix
  {
    var b := |suffix| <= |s| && s[|s| - |suffix|..] == suffix;
    assert b ==> s == s[..|s| - |suffix|] + suffix;
    b
  }

  /**
   * The part of `s` before the first occurrence of `sep`, or all of `s` when
   * `sep` does not occur: what `s.split(sep)[0]` gives for a non-empty `sep`.
   */
  function PrefixBefore(s: string, sep: string): (r: string)
    ensures Contains(s, sep) ==>
      |r| <= |s| && r == s[..|r|] && OccursAt(s, sep, |r|) &&
      forall j: nat :: j < |r| ==> !OccursAt(s, sep, j)
    ensures !Contains(s, sep) ==> r == s
  {
    match FindFrom(s, sep, 0)
    case Some(i) => s[..i]
    case None => s
  }

  /**
   * Python's `s.split(sep)[0]`. `split` raises `ValueError` on an empty
   * separator, which is `None` here.
   */
  function SplitHead(s: string, sep: string): (r: Option<string>)
    ensures r.None? <==> sep == ""
    ensures r.Some? ==> r.value == PrefixBefore(s, sep)
  {
    if sep == "" then None else Some(PrefixBefore(s, sep))
  }
}
