/** Substring search, as `std::string::find` does it. */
module Strings {
  import opened Bytes

  predicate OccursAt(s: string, pat: string, i: nat) {
    i + |pat| <= |s| && s[i..i + |pat|] == pat
  }

  predicate Occurs(s: string, pat: string) {
    exists i: nat :: i <= |s| && OccursAt(s, pat, i)
  }

  /** The first occurrence at or after `from`; `None` is `npos`. */
  function Find(s: string, pat: string, from: nat): (r: Option<nat>)
    ensures r.Some? ==> from <= r.value && r.value + |pat| <= |s|
    decreases |s| + 1 - from
  {
    if from > |s| then None
    else if OccursAt(s, pat, from) then Some(from)
    else Find(s, pat, from + 1)
  }

  /** The search finds an occurrence, and none is passed over. */
  lemma {:induction false} FindIsFirst(s: string, pat: string, from: nat)
    ensures match Find(s, pat, from)
      case Some(i) => OccursAt(s, pat, i) && forall k :: from <= k < i ==> !OccursAt(s, pat, k)
      case None => forall k :: from <= k ==> !OccursAt(s, pat, k)
    decreases |s| + 1 - from
  {
    if from <= |s| && !OccursAt(s, pat, from) {
      FindIsFirst(s, pat, from + 1);
    }
  }

  /** That pins the search result down. */
  lemma FindUnique(s: string, pat: string, from: nat, i: nat)
    requires from <= i && OccursAt(s, pat, i)
    requires forall k :: from <= k < i ==> !OccursAt(s, pat, k)
    ensures Find(s, pat, from) == Some(i)
  {
    hide Find;
    FindIsFirst(s, pat, from);
  }

  lemma OccursInSuffix(s: string, pat: string, from: nat, k: nat)
    requires from <= |s|
    ensures OccursAt(s[from..], pat, k) <==> OccursAt(s, pat, from + k)
  {
    if from + k + |pat| <= |s| {
      assert s[from..][k..k + |pat|] == s[from + k..from + k + |pat|];
    }
  }

  /** Searching from a position is searching the rest of the text. */
  lemma FindInSuffix(s: string, pat: string, from: nat)
    requires from <= |s|
    ensures Find(s, pat, from) ==
      match Find(s[from..], pat, 0) case None => None case Some(i) => Some(from + i)
  {
    hide Find;
    FindIsFirst(s, pat, from);
    FindIsFirst(s[from..], pat, 0);
    match Find(s, pat, from)
    case Some(j) =>
      forall k | 0 <= k <= j - from ensures OccursAt(s[from..], pat, k) <==> OccursAt(s, pat, from + k) {
        OccursInSuffix(s, pat, from, k);
      }
      FindUnique(s[from..], pat, 0, j - from);
    case None =>
      match Find(s[from..], pat, 0)
      case None =>
      case Some(i) => OccursInSuffix(s, pat, from, i);
  }

  /** Text after an occurrence does not move it. */
  lemma OccursInPrefix(s: string, more: string, pat: string, i: nat)
    requires i + |pat| <= |s|
    ensures OccursAt(s + more, pat, i) <==> OccursAt(s, pat, i)
  {
    assert (s + more)[i..i + |pat|] == s[i..i + |pat|];
  }

  lemma OccurrenceChar(s: string, pat: string, i: nat, j: nat)
    requires j < |pat|
    ensures OccursAt(s, pat, i) ==> i + j < |s| && s[i + j] == pat[j]
  {
    if OccursAt(s, pat, i) {
      assert s[i..i + |pat|][j] == s[i + j];
    }
  }

  /** The first `c` at or after `from`, as the overload of `find` for a character does it. */
  function FindChar(s: string, c: char, from: nat): (r: Option<nat>)
    ensures r.Some? ==> from <= r.value < |s| && s[r.value] == c
    decreases |s| - from
  {
    if from >= |s| then None
    else if s[from] == c then Some(from)
    else FindChar(s, c, from + 1)
  }

  lemma {:induction false} FindCharUnique(s: string, c: char, from: nat, i: nat)
    requires from <= i < |s| && s[i] == c && c !in s[from..i]
    ensures FindChar(s, c, from) == Some(i)
    decreases i - from
  {
    if from < i {
      assert s[from] == s[from..i][0];
      assert s[from + 1..i] == s[from..i][1..];
      FindCharUnique(s, c, from + 1, i);
    }
  }

  /** The white space of `isspace`, which `strtod` and `stoul` skip. */
  predicate IsSpace(c: char) {
    c == ' ' || '\t' <= c <= '\r'
  }

  /** Blank, tab, line feed, vertical tab, form feed and carriage return. */
  lemma SpaceCodes(c: char)
    ensures IsSpace(c) <==> c as int in {32, 9, 10, 11, 12, 13}
  {
  }

  function SkipSpace(t: string): (r: string)
    ensures |r| <= |t|
    ensures |r| > 0 ==> !IsSpace(r[0])
  {
    if |t| > 0 && IsSpace(t[0]) then SkipSpace(t[1..]) else t
  }
}
