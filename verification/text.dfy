/**
 * Substring search and Python's `str.split(sep)` over strings.
 */
module Text {
  import opened Common

  /** `pat` occurs in `s` starting at position `i`. */
  predicate OccursAt(s: string, pat: string, i: int) {
    0 <= i && i + |pat| <= |s| && s[i..i + |pat|] == pat
  }

  /** C++ `s.find(pat) != std::string::npos`, computed by scanning from the front. */
  function HasInfix(s: string, pat: string): (r: bool)
    ensures r <==> exists i :: OccursAt(s, pat, i)
    decreases |s|
  {
    if |s| < |pat| then
      assert forall i :: !OccursAt(s, pat, i);
      false
    else if s[..|pat|] == pat then
      assert OccursAt(s, pat, 0);
      true
    else
      var rest := HasInfix(s[1..], pat);
      assert !OccursAt(s, pat, 0);
      assert forall i :: 1 <= i ==> (OccursAt(s, pat, i) <==> OccursAt(s[1..], pat, i - 1));
      assert rest ==> OccursAt(s, pat, (var i :| OccursAt(s[1..], pat, i); i) + 1);
      rest
  }

  /** The index of the first occurrence of `pat` in `s`, as Python's `str.find`. */
  function FindFirst(s: string, pat: string): (r: Option<nat>)
    ensures r.Some? ==> OccursAt(s, pat, r.value)
    ensures r.Some? ==> forall j :: 0 <= j < r.value ==> !OccursAt(s, pat, j)
    ensures r.None? ==> forall j :: !OccursAt(s, pat, j)
    decreases |s|
  {
    if |s| < |pat| then None
    else if s[..|pat|] == pat then Some(0)
    else
      assert forall j :: 1 <= j ==> (OccursAt(s, pat, j) <==> OccursAt(s[1..], pat, j - 1));
      match FindFirst(s[1..], pat)
      case None => None
      case Some(j) => Some(j + 1)
  }

  /**
   * Python's `s.split(sep)` for a non-empty separator: the pieces between
   * non-overlapping occurrences of `sep`, scanned from the left.
   */
  function Split(s: string, sep: string): (parts: seq<string>)
    requires |sep| > 0
    ensures |parts| >= 1
    decreases |s|
  {
    match FindFirst(s, sep)
    case None => [s]
    case Some(i) => [s[..i]] + Split(s[i + |sep|..], sep)
  }

  /** Joins `parts` with `sep` between consecutive pieces (Python's `sep.join`). */
  function Join(parts: seq<string>, sep: string): string
    decreases |parts|
  {
    if parts == [] then []
    else if |parts| == 1 then parts[0]
    else parts[0] + sep + Join(parts[1..], sep)
  }

  /** Join of one more leading piece. */
  lemma JoinCons(p: string, tail: seq<string>, sep: string)
    requires |tail| >= 1
    ensures Join([p] + tail, sep) == p + sep + Join(tail, sep)
  {
    assert ([p] + tail)[0] == p;
    assert ([p] + tail)[1..] == tail;
  }

  /** A string in which the separator's first character does not occur cannot contain it. */
  lemma {:induction false} AbsentFirstChar(s: string, sep: string)
    requires |sep| > 0 && sep[0] !in s
    ensures FindFirst(s, sep).None?
  {
    assert forall j :: !OccursAt(s, sep, j);
  }

  /** Python's split inverts Join when no piece contains the separator. */
  lemma {:induction false} SplitJoin(parts: seq<string>, sep: string)
    requires |sep| > 0 && |parts| >= 1
    requires forall k :: 0 <= k < |parts| ==> sep[0] !in parts[k]
    ensures Split(Join(parts, sep), sep) == parts
    decreases |parts|
  {
    if |parts| == 1 {
      AbsentFirstChar(parts[0], sep);
    } else {
      var s := Join(parts, sep);
      var rest := Join(parts[1..], sep);
      assert s == parts[0] + sep + rest;
      FirstOccurrenceAfter(parts[0], sep, rest);
      assert s[|parts[0]| + |sep|..] == rest;
      assert s[..|parts[0]|] == parts[0];
      SplitJoin(parts[1..], sep);
    }
  }

  /** In `a + sep + t`, when `a` lacks `sep`'s first character, the first match is right after `a`. */
  lemma FirstOccurrenceAfter(a: string, sep: string, t: string)
    requires |sep| > 0 && sep[0] !in a
    ensures FindFirst(a + sep + t, sep) == Some(|a|)
  {
    var s := a + sep + t;
    assert OccursAt(s, sep, |a|) by {
      assert s[|a|..|a| + |sep|] == sep;
    }
    assert forall j :: 0 <= j < |a| ==> !OccursAt(s, sep, j);
  }
}
