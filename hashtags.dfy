/** extractHashtags: the matches of the global pattern `#[\w]+` in a post's text, with
    repeated tags dropped after their first occurrence (`[...new Set(matches)]`). */
module Hashtags {
  import opened Common

  /** `\w`: an ASCII letter, a digit or the underscore. */
  predicate IsWordChar(c: char) {
    'a' <= c <= 'z' || 'A' <= c <= 'Z' || '0' <= c <= '9' || c == '_'
  }

  /** The number of consecutive word characters of s starting at position j. */
  function WordRun(s: string, j: nat): (n: nat)
    requires j <= |s|
    ensures j + n <= |s|
    ensures forall k :: j <= k < j + n ==> IsWordChar(s[k])
    ensures j + n < |s| ==> !IsWordChar(s[j + n])
    decreases |s| - j
  {
    if j < |s| && IsWordChar(s[j]) then 1 + WordRun(s, j + 1) else 0
  }

  /** The pattern matches at i: a '#' followed by at least one word character. */
  predicate TagStartsAt(s: string, i: int) {
    0 <= i && i + 1 < |s| && s[i] == '#' && IsWordChar(s[i + 1])
  }

  /** The (greedy, hence longest) match starting at i. */
  function TagAt(s: string, i: int): (t: string)
    requires TagStartsAt(s, i)
  {
    s[i .. i + 1 + WordRun(s, i + 1)]
  }

  /** The global scan: after a match, the search resumes right behind it. */
  function Matches(s: string, i: nat): seq<string>
    requires i <= |s|
    decreases |s| - i
  {
    if i == |s| then []
    else if TagStartsAt(s, i) then [TagAt(s, i)] + Matches(s, i + 1 + WordRun(s, i + 1))
    else Matches(s, i + 1)
  }

  /** Building a Set and spreading it back: the first occurrence of each value, in order. */
  function Dedupe(s: seq<string>): (r: seq<string>)
    ensures forall t :: t in r <==> t in s
    ensures NoDups(r)
  {
    if s == [] then []
    else
      var r := Dedupe(s[..|s| - 1]);
      assert s == s[..|s| - 1] + [s[|s| - 1]];
      if s[|s| - 1] in r then r
      else
        AppendFreshKeepsNoDups(r, s[|s| - 1]);
        r + [s[|s| - 1]]
  }

  /** extractHashtags; a value that is not a string (None) gives no tags. */
  function ExtractHashtags(text: Option<string>): (r: seq<string>)
    ensures text.None? ==> r == []
    ensures NoDups(r)
  {
    if text.None? then [] else Dedupe(Matches(text.value, 0))
  }

  // ---------------------------------------------------------------------------
  // What the scan finds
  // ---------------------------------------------------------------------------

  /** The scan from i finds exactly the matches that start at i or later: skipping past a
      match loses nothing, because no match can start inside one. */
  lemma {:induction false} MatchesExactly(s: string, i: nat)
    requires i <= |s|
    ensures forall t :: t in Matches(s, i) <==> exists k :: i <= k < |s| && TagStartsAt(s, k) && TagAt(s, k) == t
    decreases |s| - i
  {
    if i == |s| {
    } else if TagStartsAt(s, i) {
      var e := i + 1 + WordRun(s, i + 1);
      MatchesExactly(s, e);
      forall k | i < k < e ensures !TagStartsAt(s, k) {
        assert IsWordChar(s[k]);
      }
      forall t | t in Matches(s, i) ensures exists k :: i <= k < |s| && TagStartsAt(s, k) && TagAt(s, k) == t {
        if t != TagAt(s, i) {
          assert t in Matches(s, e);
        }
      }
    } else {
      MatchesExactly(s, i + 1);
      forall t | (exists k :: i <= k < |s| && TagStartsAt(s, k) && TagAt(s, k) == t)
        ensures t in Matches(s, i)
      {
        var k :| i <= k < |s| && TagStartsAt(s, k) && TagAt(s, k) == t;
        assert k != i;
      }
    }
  }

  /** The tags of a text are exactly the longest `#word` runs that occur in it, each once. */
  lemma TagsAreMatches(s: string)
    ensures forall t :: t in ExtractHashtags(Some(s)) <==> exists k :: 0 <= k < |s| && TagStartsAt(s, k) && TagAt(s, k) == t
    ensures NoDups(ExtractHashtags(Some(s)))
  {
    MatchesExactly(s, 0);
  }

  /** t occurs in s at position k and cannot be extended there by a word character. */
  predicate OccursMaximallyAt(s: string, t: string, k: int) {
    0 <= k && k + |t| <= |s| && s[k .. k + |t|] == t && (k + |t| < |s| ==> !IsWordChar(s[k + |t|]))
  }

  /** Every tag is '#' followed by one or more word characters, occurs in the text at
      some position k, and is maximal there: the character after it is not a word character. */
  lemma TagShape(s: string, t: string)
    requires t in ExtractHashtags(Some(s))
    ensures |t| >= 2 && t[0] == '#'
    ensures forall m :: 1 <= m < |t| ==> IsWordChar(t[m])
    ensures exists k :: OccursMaximallyAt(s, t, k)
  {
    TagsAreMatches(s);
    var k :| 0 <= k < |s| && TagStartsAt(s, k) && TagAt(s, k) == t;
    var n := WordRun(s, k + 1);
    assert t == s[k .. k + 1 + n];
    assert n >= 1;
    forall m | 1 <= m < |t| ensures IsWordChar(t[m]) {
      assert t[m] == s[k + m];
    }
    assert OccursMaximallyAt(s, t, k);
  }

  /** The result is empty exactly when no '#' is followed by a word character. */
  lemma NoTagsIff(s: string)
    ensures ExtractHashtags(Some(s)) == [] <==> forall k :: 0 <= k < |s| ==> !TagStartsAt(s, k)
  {
    TagsAreMatches(s);
    if ExtractHashtags(Some(s)) != [] {
      var t := ExtractHashtags(Some(s))[0];
      assert t in ExtractHashtags(Some(s));
    }
    forall k | 0 <= k < |s| && TagStartsAt(s, k) ensures TagAt(s, k) in ExtractHashtags(Some(s)) {
    }
  }

  /** No word boundary is needed before '#': "a#b" yields ["#b"]. */
  lemma HashAfterLetter()
    ensures ExtractHashtags(Some("a#b")) == ["#b"]
  {
    var s := "a#b";
    assert !TagStartsAt(s, 0) && TagStartsAt(s, 1) && !TagStartsAt(s, 2);
    assert WordRun(s, 3) == 0;
    assert WordRun(s, 2) == 1;
    assert TagAt(s, 1) == "#b";
    assert Matches(s, 3) == [];
    assert Matches(s, 1) == ["#b"] + Matches(s, 3);
    assert Matches(s, 0) == Matches(s, 1);
    assert ["#b"][..0] == [];
  }

  // ---------------------------------------------------------------------------
  // First-occurrence order
  // ---------------------------------------------------------------------------

  /** The position of the first occurrence of t in s. */
  function FirstIndex(s: seq<string>, t: string): (k: nat)
    requires t in s
    ensures k < |s| && s[k] == t
    ensures forall m :: 0 <= m < k ==> s[m] != t
  {
    if s[0] == t then 0 else 1 + FirstIndex(s[1..], t)
  }

  lemma {:induction false} FirstIndexPrefix(s: seq<string>, n: nat, t: string)
    requires n <= |s| && t in s[..n]
    ensures FirstIndex(s[..n], t) == FirstIndex(s, t)
  {
    var a := FirstIndex(s[..n], t);
    var b := FirstIndex(s, t);
    assert s[..n][a] == s[a];
  }

  /** Dedupe lists the distinct values in the order of their first occurrences. */
  lemma {:induction false} DedupeKeepsFirstOrder(s: seq<string>)
    ensures forall i, j :: 0 <= i < j < |Dedupe(s)| ==> FirstIndex(s, Dedupe(s)[i]) < FirstIndex(s, Dedupe(s)[j])
  {
    if s != [] {
      var p := s[..|s| - 1];
      var x := s[|s| - 1];
      var r := Dedupe(p);
      DedupeKeepsFirstOrder(p);
      assert s == p + [x];
      assert s[..|s| - 1] == p;
      forall i | 0 <= i < |r| ensures FirstIndex(s, r[i]) == FirstIndex(p, r[i]) {
        assert r[i] in p;
        FirstIndexPrefix(s, |s| - 1, r[i]);
      }
      if x !in r {
        assert x !in p;
        assert FirstIndex(s, x) == |s| - 1;
        var d := r + [x];
        assert Dedupe(s) == d;
        forall i, j | 0 <= i < j < |d| ensures FirstIndex(s, d[i]) < FirstIndex(s, d[j]) {
          assert d[i] == r[i];
          if j < |r| {
            assert d[j] == r[j];
          }
        }
      }
    }
  }

  /** The tags keep the order of their first appearance in the matches. */
  lemma TagsInFirstOrder(s: string)
    ensures forall i, j :: 0 <= i < j < |ExtractHashtags(Some(s))| ==>
      FirstIndex(Matches(s, 0), ExtractHashtags(Some(s))[i]) < FirstIndex(Matches(s, 0), ExtractHashtags(Some(s))[j])
  {
    DedupeKeepsFirstOrder(Matches(s, 0));
  }
}
