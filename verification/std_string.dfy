/**
 * The few `std::string` search operations the conversation core relies on,
 * stated over `seq<char>`.  `npos` (nothing found) is `None`.
 */
module StdString {

  datatype Option<T> = None | Some(value: T)

  /** `pat` occurs in `s` starting at position `i`. */
  predicate OccursAt(s: string, pat: string, i: int)
  {
    0 <= i && i + |pat| <= |s| && s[i..i + |pat|] == pat
  }

  /** `pat` occurs somewhere in `s`. */
  ghost predicate Contains(s: string, pat: string): (c: bool)
    ensures pat == [] ==> c
    ensures |pat| > |s| ==> !c
  {
    assert pat == [] ==> OccursAt(s, pat, 0);
    exists i :: OccursAt(s, pat, i)
  }

  /** `s.find(pat, from)`: the first occurrence of `pat` at or after `from`. */
  function FindFrom(s: string, pat: string, from: nat): (r: Option<nat>)
    ensures r.Some? ==> from <= r.value && OccursAt(s, pat, r.value)
    ensures forall i :: from <= i && (r.None? || i < r.value) ==> !OccursAt(s, pat, i)
    decreases |s| - from
  {
    if from + |pat| > |s| then None
    else if s[from..from + |pat|] == pat then Some(from)
    else FindFrom(s, pat, from + 1)
  }

  /** `s.find(pat)`: `npos` exactly when `pat` does not occur in `s`. */
  function Find(s: string, pat: string): (r: Option<nat>)
    ensures r.None? <==> !Contains(s, pat)
    ensures r.Some? ==> OccursAt(s, pat, r.value) && forall i :: 0 <= i < r.value ==> !OccursAt(s, pat, i)
  {
    var r := FindFrom(s, pat, 0);
    assert r.Some? ==> OccursAt(s, pat, r.value);
    r
  }

  /** `s.find_last_of(chars)`: the last position holding one of `chars`. */
  function FindLastOf(s: string, chars: set<char>): (r: Option<nat>)
    ensures r.Some? ==> r.value < |s| && s[r.value] in chars
    ensures r.Some? ==> forall j :: r.value < j < |s| ==> s[j] !in chars
    ensures r.None? ==> forall j :: 0 <= j < |s| ==> s[j] !in chars
  {
    if |s| == 0 then None
    else if s[|s| - 1] in chars then Some(|s| - 1)
    else FindLastOf(s[..|s| - 1], chars)
  }

  /** `s.find_first_not_of(chars)`: the first position holding a character outside `chars`. */
  function FindFirstNotOf(s: string, chars: set<char>): (r: Option<nat>)
    ensures r.Some? ==> r.value < |s| && s[r.value] !in chars
    ensures r.Some? ==> forall j :: 0 <= j < r.value ==> s[j] in chars
    ensures r.None? ==> forall j :: 0 <= j < |s| ==> s[j] in chars
  {
    if |s| == 0 then None
    else if s[0] !in chars then Some(0)
    else match FindFirstNotOf(s[1..], chars)
      case None => None
      case Some(k) => Some(k + 1)
  }

  /** `s.find_last_not_of(chars)`: the last position holding a character outside `chars`. */
  function FindLastNotOf(s: string, chars: set<char>): (r: Option<nat>)
    ensures r.Some? ==> r.value < |s| && s[r.value] !in chars
    ensures r.Some? ==> forall j :: r.value < j < |s| ==> s[j] in chars
    ensures r.None? ==> forall j :: 0 <= j < |s| ==> s[j] in chars
  {
    if |s| == 0 then None
    else if s[|s| - 1] !in chars then Some(|s| - 1)
    else FindLastNotOf(s[..|s| - 1], chars)
  }

  /** An occurrence of `pat` inside an occurrence of `outer` is an occurrence in `s`. */
  lemma OccursWithin(s: string, outer: string, pat: string, i: nat, k: nat)
    requires OccursAt(s, outer, i)
    requires OccursAt(outer, pat, k)
    ensures OccursAt(s, pat, i + k)
  {
    assert outer == s[i..i + |outer|];
    forall j | 0 <= j < |pat|
      ensures s[i + k + j] == pat[j]
    {
      assert pat[j] == outer[k + j];
    }
    assert s[i + k..i + k + |pat|] == pat;
  }
}
