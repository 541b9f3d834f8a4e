/** Shared vocabulary of the backend: optional values, handler outcomes, MongoDB
    object ids and the array operations the controllers apply to id lists. */
module Common {

  datatype Option<+T> = None | Some(value: T)

  /** The HTTP status a handler answers with when it does not succeed. */
  datatype Status = BadRequest | Unauthorized | Forbidden | NotFound | Conflict | Internal

  /** What a handler answers: its success payload, or an error status. */
  datatype Result<+T> = Ok(value: T) | Err(status: Status)

  // ---------------------------------------------------------------------------
  // Object ids
  // ---------------------------------------------------------------------------

  predicate IsHexDigit(c: char) {
    '0' <= c <= '9' || 'a' <= c <= 'f' || 'A' <= c <= 'F'
  }

  predicate IsLowerHexDigit(c: char) {
    '0' <= c <= '9' || 'a' <= c <= 'f'
  }

  /** Text that mongoose.Types.ObjectId.isValid accepts: 24 hexadecimal digits, either case. */
  predicate IsObjectIdText(s: string) {
    |s| == 24 && forall i :: 0 <= i < |s| ==> IsHexDigit(s[i])
  }

  /** The form ObjectId.toString() prints: 24 lower-case hexadecimal digits. */
  predicate IsCanonicalId(s: string) {
    |s| == 24 && forall i :: 0 <= i < |s| ==> IsLowerHexDigit(s[i])
  }

  /** A stored object id, always in printed (lower-case) form. */
  type Id = s: string | IsCanonicalId(s) witness "000000000000000000000000"

  function LowerChar(c: char): char {
    if 'A' <= c <= 'F' then (c as int + 32) as char else c
  }

  function Lower(s: string): (r: string)
    ensures |r| == |s|
    ensures forall i :: 0 <= i < |s| ==> r[i] == LowerChar(s[i])
  {
    if s == [] then [] else [LowerChar(s[0])] + Lower(s[1..])
  }

  /** Casting a route parameter to an ObjectId, as Mongoose does before a query runs:
      malformed text raises a CastError (None), well-formed text of either case
      denotes the id it prints as. */
  function CastId(s: string): (r: Option<Id>)
    ensures r.Some? <==> IsObjectIdText(s)
    ensures r.Some? ==> r.value == Lower(s)
    ensures IsCanonicalId(s) ==> r == Some(s)
  {
    if IsObjectIdText(s) then
      var l := Lower(s);
      assert IsCanonicalId(l);
      assert IsCanonicalId(s) ==> l == s;
      Some(l)
    else None
  }

  // ---------------------------------------------------------------------------
  // Id lists (MongoDB arrays of references)
  // ---------------------------------------------------------------------------

  predicate NoDups<T(==)>(s: seq<T>) {
    forall i, j :: 0 <= i < j < |s| ==> s[i] != s[j]
  }

  /** Every occurrence of x removed, order kept: Mongoose `pull`, `$pull`, and the
      controllers' `list = list.filter(id => id.toString() !== x)`. */
  function Without<T(==,!new)>(s: seq<T>, x: T): (r: seq<T>)
    ensures x !in r
    ensures forall y :: y != x ==> (y in r <==> y in s)
    ensures |r| <= |s|
    ensures x !in s ==> r == s
  {
    if s == [] then []
    else if s[0] == x then Without(s[1..], x)
    else [s[0]] + Without(s[1..], x)
  }

  /** `$addToSet`: append x unless it is already present. */
  function AddToSet<T(==,!new)>(s: seq<T>, x: T): (r: seq<T>)
    ensures x in r
    ensures forall y :: y in r <==> y in s || y == x
    ensures x in s ==> r == s
    ensures x !in s ==> r == s + [x]
    ensures NoDups(s) ==> NoDups(r)
  {
    if x in s then s else s + [x]
  }

  lemma {:induction false} WithoutAppend<T(!new)>(s: seq<T>, y: T, x: T)
    ensures Without(s + [y], x) == Without(s, x) + (if y == x then [] else [y])
  {
    if s == [] {
      assert s + [y] == [y];
      assert Without([y][1..], x) == [];
    } else {
      assert (s + [y])[0] == s[0];
      assert (s + [y])[1..] == s[1..] + [y];
      WithoutAppend(s[1..], y, x);
    }
  }

  lemma {:induction false} WithoutKeepsNoDups<T(!new)>(s: seq<T>, x: T)
    requires NoDups(s)
    ensures NoDups(Without(s, x))
  {
    if s != [] {
      assert NoDups(s[1..]) by {
        forall i, j | 0 <= i < j < |s[1..]| ensures s[1..][i] != s[1..][j] {
          assert s[1..][i] == s[i + 1] && s[1..][j] == s[j + 1];
        }
      }
      WithoutKeepsNoDups(s[1..], x);
      if s[0] != x {
        var r := Without(s[1..], x);
        assert s[0] !in s[1..] by {
          forall k | 0 <= k < |s[1..]| ensures s[1..][k] != s[0] {
            assert s[1..][k] == s[k + 1];
          }
        }
        assert s[0] !in r;
        assert NoDups([s[0]] + r) by {
          forall i, j | 0 <= i < j < |[s[0]] + r| ensures ([s[0]] + r)[i] != ([s[0]] + r)[j] {
            if i == 0 {
              assert ([s[0]] + r)[j] == r[j - 1];
            } else {
              assert ([s[0]] + r)[i] == r[i - 1] && ([s[0]] + r)[j] == r[j - 1];
            }
          }
        }
      }
    }
  }

  /** Removing an element that occurs once shrinks the list by exactly one. */
  lemma {:induction false} WithoutSingle<T(!new)>(s: seq<T>, x: T)
    requires NoDups(s) && x in s
    ensures |Without(s, x)| == |s| - 1
  {
    if s[0] == x {
      assert x !in s[1..] by {
        forall k | 0 <= k < |s[1..]| ensures s[1..][k] != x {
          assert s[1..][k] == s[k + 1];
        }
      }
    } else {
      assert x in s[1..] by {
        var k :| 0 <= k < |s| && s[k] == x;
        assert k > 0 && s[1..][k - 1] == x;
      }
      assert NoDups(s[1..]) by {
        forall i, j | 0 <= i < j < |s[1..]| ensures s[1..][i] != s[1..][j] {
          assert s[1..][i] == s[i + 1] && s[1..][j] == s[j + 1];
        }
      }
      WithoutSingle(s[1..], x);
    }
  }

  lemma AppendFreshKeepsNoDups<T>(s: seq<T>, x: T)
    requires NoDups(s) && x !in s
    ensures NoDups(s + [x])
  {
    forall i, j | 0 <= i < j < |s + [x]| ensures (s + [x])[i] != (s + [x])[j] {
      if j == |s| {
        assert (s + [x])[i] == s[i];
      } else {
        assert (s + [x])[i] == s[i] && (s + [x])[j] == s[j];
      }
    }
  }

  /** Removing the element a list just gained gives back the list, when it was absent before. */
  lemma {:induction false} WithoutAppendFresh<T(!new)>(s: seq<T>, x: T)
    requires x !in s
    ensures Without(s + [x], x) == s
  {
    WithoutAppend(s, x, x);
  }

  /** The filter reassignment of the friend controllers, run element by element. */
  method RemoveAll(s: seq<Id>, x: Id) returns (r: seq<Id>)
    ensures r == Without(s, x)
  {
    r := [];
    var i := 0;
    while i < |s|
      invariant 0 <= i <= |s|
      invariant r == Without(s[..i], x)
    {
      assert s[..i + 1] == s[..i] + [s[i]];
      WithoutAppend(s[..i], s[i], x);
      if s[i] != x {
        r := r + [s[i]];
      }
      i := i + 1;
    }
    assert s[..|s|] == s;
  }
}
