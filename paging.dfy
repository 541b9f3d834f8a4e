/** Query arithmetic shared by the list handlers: `parseInt(q) || default`,
    `.skip().limit()`, `Math.ceil(total / limit)`, the "next page" marker and the
    newest-first ordering of `.sort({ createdAt: -1 })`. */
module Paging {
  import opened Common

  function Abs(x: int): nat {
    if x < 0 then -x else x
  }

  function Min(a: int, b: int): int {
    if a <= b then a else b
  }

  function Max(a: int, b: int): int {
    if a >= b then a else b
  }

  /** `parseInt(req.query.x) || d`: a missing or non-numeric value (None) and 0 both
      fall back to the default; any other number, negative ones included, is kept. */
  function QueryOr(q: Option<int>, d: int): (r: int)
    requires d != 0
    ensures r != 0
    ensures q.Some? && q.value != 0 ==> r == q.value
    ensures q.None? || q.value == 0 ==> r == d
  {
    if q.Some? && q.value != 0 then q.value else d
  }

  /** `(page - 1) * limit` */
  function SkipFor(page: int, limit: int): int {
    (page - 1) * limit
  }

  /** `.skip(skip).limit(limit)` over a query's result. MongoDB refuses a negative skip
      (the handler's catch answers 500), and a negative limit asks for |limit|
      documents in one batch. */
  function Window<T>(s: seq<T>, skip: int, limit: int): (r: Option<seq<T>>)
    requires limit != 0
    ensures r.None? <==> skip < 0
    ensures r.Some? ==> |r.value| == Min(Abs(limit), Max(0, |s| - skip))
    ensures r.Some? ==> forall k :: 0 <= k < |r.value| ==> r.value[k] == s[skip + k]
  {
    if skip < 0 then None
    else if skip >= |s| then Some([])
    else Some(s[skip .. Min(|s|, skip + Abs(limit))])
  }

  /** `Math.ceil(total / limit)` for a non-zero limit of either sign: the least integer
      not below the quotient. */
  function CeilDiv(total: nat, limit: int): (r: int)
    requires limit != 0
    ensures limit > 0 ==> (r - 1) * limit < total <= r * limit
    ensures limit < 0 ==> r * limit <= total < (r - 1) * limit
  {
    if limit > 0 then
      var q := (total + limit - 1) / limit;
      var m := (total + limit - 1) % limit;
      assert q * limit + m == total + limit - 1;
      assert (q - 1) * limit == q * limit - limit;
      q
    else
      var l := -limit;
      var q := total / l;
      var m := total % l;
      assert q * l + m == total;
      assert -q * limit == q * l;
      assert (-q - 1) * limit == q * l + l;
      -q
  }

  /** data is the page of s that starts at skip and holds at most |limit| records. */
  ghost predicate PageAt<T>(data: seq<T>, s: seq<T>, skip: int, limit: int) {
    0 <= skip
    && |data| == Min(Abs(limit), Max(0, |s| - skip))
    && forall k :: 0 <= k < |data| ==> data[k] == s[skip + k]
  }

  /** A page that covers position j of the list holds the record there. */
  lemma PageHolds<T>(data: seq<T>, s: seq<T>, skip: int, limit: int, j: int)
    requires PageAt(data, s, skip, limit) && skip <= j < skip + Abs(limit) && j < |s|
    ensures s[j] in data
  {
    assert data[j - skip] == s[j];
  }

  /** A position at which x occurs in s. */
  lemma PositionOf<T>(s: seq<T>, x: T) returns (j: nat)
    requires x in s
    ensures j < |s| && s[j] == x
  {
    j :| 0 <= j < |s| && s[j] == x;
  }

  /** The page that holds position j: for a positive limit, page j / limit + 1 starts
      at or before j and ends after it. */
  lemma PageOfPosition(j: nat, limit: int)
    requires limit > 0
    ensures j / limit >= 0
    ensures 0 <= SkipFor(j / limit + 1, limit) <= j < SkipFor(j / limit + 1, limit) + limit
  {
    var q := j / limit;
    assert j == q * limit + j % limit;
    assert SkipFor(q + 1, limit) == q * limit;
  }

  /** `posts.length === limit ? page + 1 : null` */
  function NextPage(page: int, returned: nat, limit: int): (r: Option<int>)
    ensures r.Some? <==> returned == limit
    ensures r.Some? ==> r.value == page + 1
  {
    if returned == limit then Some(page + 1) else None
  }

  // ---------------------------------------------------------------------------
  // Newest first
  // ---------------------------------------------------------------------------

  predicate SortedDesc<T>(s: seq<T>, key: T -> int) {
    forall i, j :: 0 <= i < j < |s| ==> key(s[i]) >= key(s[j])
  }

  /** Place x before the first element whose key does not exceed its own. */
  function InsertDesc<T>(x: T, s: seq<T>, key: T -> int): (r: seq<T>)
    ensures |r| == |s| + 1
    ensures multiset(r) == multiset(s) + multiset{x}
    ensures r[0] == x || (s != [] && r[0] == s[0])
    ensures SortedDesc(s, key) ==> SortedDesc(r, key)
  {
    if s == [] then [x]
    else if key(s[0]) <= key(x) then [x] + s
    else
      var t := InsertDesc(x, s[1..], key);
      assert s == [s[0]] + s[1..];
      [s[0]] + t
  }

  /** `.sort({ createdAt: -1 })`: largest key first; records with equal keys keep
      their storage order. */
  function SortDesc<T>(s: seq<T>, key: T -> int): (r: seq<T>)
    ensures SortedDesc(r, key)
    ensures multiset(r) == multiset(s)
    ensures |r| == |s|
  {
    if s == [] then []
    else
      assert s == [s[0]] + s[1..];
      InsertDesc(s[0], SortDesc(s[1..], key), key)
  }

  /** A page cut from a newest-first list is newest first, and holds only records of
      the list. */
  lemma WindowOfSorted<T>(s: seq<T>, skip: int, limit: int, key: T -> int)
    requires limit != 0 && SortedDesc(s, key) && Window(s, skip, limit).Some?
    ensures SortedDesc(Window(s, skip, limit).value, key)
    ensures forall x :: x in Window(s, skip, limit).value ==> x in s
  {
    var w := Window(s, skip, limit).value;
    forall i, j | 0 <= i < j < |w| ensures key(w[i]) >= key(w[j]) {
      assert w[i] == s[skip + i] && w[j] == s[skip + j];
    }
    forall x | x in w ensures x in s {
      var k :| 0 <= k < |w| && w[k] == x;
      assert s[skip + k] == x;
    }
  }

  /** Sorting keeps exactly the records it was given. */
  lemma SortDescSameMembers<T>(s: seq<T>, key: T -> int)
    ensures forall x :: x in SortDesc(s, key) <==> x in s
  {
    var r := SortDesc(s, key);
    forall x ensures x in r <==> x in s {
      assert x in r <==> x in multiset(r);
      assert x in s <==> x in multiset(s);
    }
  }

  /** The records of s that satisfy p, in storage order. */
  function Select<T(!new)>(s: seq<T>, p: T -> bool): (r: seq<T>)
    ensures |r| <= |s|
    ensures forall x :: x in r <==> x in s && p(x)
  {
    if s == [] then []
    else if p(s[0]) then [s[0]] + Select(s[1..], p)
    else Select(s[1..], p)
  }

  /** Selection distributes over concatenation, so it keeps the storage order: the
      selected records of a prefix come before those of the rest. */
  lemma {:induction false} SelectConcat<T(!new)>(s: seq<T>, t: seq<T>, p: T -> bool)
    ensures Select(s + t, p) == Select(s, p) + Select(t, p)
  {
    if s != [] {
      assert (s + t)[0] == s[0];
      assert (s + t)[1..] == s[1..] + t;
      SelectConcat(s[1..], t, p);
    } else {
      assert s + t == t;
    }
  }

  /** The positions of s whose record satisfies p. */
  function Positions<T>(s: seq<T>, p: T -> bool): set<int> {
    set k | 0 <= k < |s| && p(s[k])
  }

  /** The number of selected records is the number of positions whose record
      qualifies. */
  lemma {:induction false} SelectCountsPositions<T(!new)>(s: seq<T>, p: T -> bool)
    ensures |Select(s, p)| == |Positions(s, p)|
  {
    if s != [] {
      var init := s[..|s| - 1];
      var x := s[|s| - 1];
      assert s == init + [x];
      SelectAppend(init, x, p);
      SelectCountsPositions(init, p);
      var before := Positions(init, p);
      var after := Positions(s, p);
      var last: set<int> := if p(x) then {|init|} else {};
      forall k ensures k in after <==> k in before + last {
        if 0 <= k < |init| {
          assert s[k] == init[k];
        }
      }
      assert after == before + last;
      assert before !! last;
    }
  }

  /** Selecting from a list extended by one record extends the selection by that
      record when it qualifies. */
  lemma {:induction false} SelectAppend<T(!new)>(s: seq<T>, x: T, p: T -> bool)
    ensures Select(s + [x], p) == Select(s, p) + (if p(x) then [x] else [])
  {
    if s == [] {
      assert [x][1..] == [];
    } else {
      assert (s + [x])[1..] == s[1..] + [x];
      SelectAppend(s[1..], x, p);
    }
  }

  /** A filter no element satisfies selects nothing. */
  lemma {:induction false} SelectNone<T(!new)>(s: seq<T>, p: T -> bool)
    requires forall x :: x in s ==> !p(x)
    ensures Select(s, p) == []
  {
    if s != [] {
      assert s[0] in s;
      SelectNone(s[1..], p);
    }
  }
}
