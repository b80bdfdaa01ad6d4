/** Case-insensitive record keys and the first-match scan that every record list of the
    cafe stock system uses: a record matches a query when its lowercased name equals the
    lowercased query. Lowering is ASCII-only. */
module Keys {

  datatype Option<+T> = None | Some(value: T)

  /** ASCII lowering of one character; any other character is kept. */
  function LowerChar(c: char): (r: char)
    ensures !('A' <= r <= 'Z')
    ensures r != c ==> 'A' <= c <= 'Z'
  {
    if 'A' <= c <= 'Z' then (c as int - 'A' as int + 'a' as int) as char else c
  }

  /** The model of Python's `str.lower()` on a name. */
  function Lower(s: string): (r: string)
    ensures |r| == |s|
    ensures forall i :: 0 <= i < |s| ==> r[i] == LowerChar(s[i])
  {
    seq(|s|, i requires 0 <= i < |s| => LowerChar(s[i]))
  }

  /** `a.lower() == b.lower()` */
  predicate SameName(a: string, b: string)
    ensures SameName(a, b) ==> |a| == |b|
  {
    Lower(a) == Lower(b)
  }

  /** Two names match exactly when they have the same length and agree character by character
      once each character is lowered. */
  lemma SameNameChars(a: string, b: string)
    ensures SameName(a, b) <==>
      |a| == |b| && forall i :: 0 <= i < |a| ==> LowerChar(a[i]) == LowerChar(b[i])
  {
    if |a| == |b| && forall i :: 0 <= i < |a| ==> LowerChar(a[i]) == LowerChar(b[i]) {
      assert forall i :: 0 <= i < |a| ==> Lower(a)[i] == Lower(b)[i];
    }
  }

  /** Lowering twice is lowering once, so any spelling matches its own lowered form. */
  lemma LowerIdempotent(s: string)
    ensures Lower(Lower(s)) == Lower(s)
    ensures SameName(s, Lower(s))
  {
  }

  /** The position of the first record whose key matches `q`, or None. This is the early-return
      scan `for r in records: if r.name.lower() == q.lower(): return r`. */
  function FirstMatch<T>(s: seq<T>, key: T -> string, q: string): (r: Option<nat>)
    ensures r.Some? ==> r.value < |s| && SameName(key(s[r.value]), q)
    ensures r.Some? ==> forall j :: 0 <= j < r.value ==> !SameName(key(s[j]), q)
    ensures r.None? ==> forall j :: 0 <= j < |s| ==> !SameName(key(s[j]), q)
    decreases |s|
  {
    if |s| == 0 then None
    else if SameName(key(s[0]), q) then Some(0)
    else match FirstMatch(s[1..], key, q)
      case None => None
      case Some(k) => Some(k + 1)
  }

  /** A matching position with no earlier match is the first match. */
  lemma FirstMatchAt<T>(s: seq<T>, key: T -> string, q: string, i: nat)
    requires i < |s| && SameName(key(s[i]), q)
    requires forall j :: 0 <= j < i ==> !SameName(key(s[j]), q)
    ensures FirstMatch(s, key, q) == Some(i)
  {
  }

  /** The first match depends only on the keys, so changing other fields keeps it. */
  lemma FirstMatchSameKeys<T>(s: seq<T>, t: seq<T>, key: T -> string, q: string)
    requires |s| == |t|
    requires forall j :: 0 <= j < |s| ==> key(s[j]) == key(t[j])
    ensures FirstMatch(s, key, q) == FirstMatch(t, key, q)
  {
    match FirstMatch(s, key, q)
    case None =>
    case Some(i) => FirstMatchAt(t, key, q, i);
  }

  /** Appending a record: an existing match still wins; otherwise the new record is found exactly
      when its key matches. */
  lemma FirstMatchAfterAppend<T>(s: seq<T>, key: T -> string, x: T, q: string)
    ensures FirstMatch(s + [x], key, q) ==
      if FirstMatch(s, key, q).Some? then FirstMatch(s, key, q)
      else if SameName(key(x), q) then Some(|s|)
      else None
  {
    var t := s + [x];
    match FirstMatch(s, key, q)
    case Some(i) =>
      FirstMatchAt(t, key, q, i);
    case None =>
      if SameName(key(x), q) {
        FirstMatchAt(t, key, q, |s|);
      } else {
        var r := FirstMatch(t, key, q);
        if r.Some? {
          assert false;
        }
      }
  }

  /** Within one list, no two records have case-insensitively equal names. */
  ghost predicate DistinctNames<T>(s: seq<T>, key: T -> string)
  {
    forall i, j :: 0 <= i < j < |s| ==> !SameName(key(s[i]), key(s[j]))
  }

  /** Appending a record whose name matches nothing keeps the names distinct, and a search for
      that name in any spelling then finds the new record. */
  lemma AppendFresh<T>(s: seq<T>, key: T -> string, x: T, q: string)
    requires FirstMatch(s, key, key(x)).None?
    requires SameName(q, key(x))
    ensures DistinctNames(s, key) ==> DistinctNames(s + [x], key)
    ensures FirstMatch(s + [x], key, q) == Some(|s|)
  {
    var t := s + [x];
    forall j | 0 <= j < |s|
      ensures !SameName(key(t[j]), q)
    {
      assert t[j] == s[j];
    }
    FirstMatchAt(t, key, q, |s|);
  }

  /** Dropping position i and keeping the rest in order. */
  function RemoveAt<T>(s: seq<T>, i: nat): (r: seq<T>)
    requires i < |s|
    ensures |r| == |s| - 1
    ensures forall j :: 0 <= j < i ==> r[j] == s[j]
    ensures forall j :: i <= j < |r| ==> r[j] == s[j + 1]
    ensures multiset(r) + multiset{s[i]} == multiset(s)
  {
    assert s == s[..i] + [s[i]] + s[i + 1..];
    s[..i] + s[i + 1..]
  }

  /** The first position holding a value equal to x (Python's `list.index`). */
  function IndexOf<T(==)>(s: seq<T>, x: T): (r: nat)
    requires x in s
    ensures r < |s| && s[r] == x
    ensures forall j :: 0 <= j < r ==> s[j] != x
    decreases |s|
  {
    if s[0] == x then 0 else IndexOf(s[1..], x) + 1
  }

  /** Python's `list.remove(x)`: drops the first element equal to x. */
  function RemoveValue<T(==)>(s: seq<T>, x: T): (r: seq<T>)
    requires x in s
    ensures |r| == |s| - 1
    ensures multiset(r) + multiset{x} == multiset(s)
    ensures forall j :: 0 <= j < IndexOf(s, x) ==> r[j] == s[j]
    ensures forall j :: IndexOf(s, x) <= j < |r| ==> r[j] == s[j + 1]
  {
    RemoveAt(s, IndexOf(s, x))
  }

  /** Removing, by value, the record that the first-match scan returned removes exactly the first
      match: an equal record earlier in the list would have matched first. */
  lemma RemoveFoundValue<T>(s: seq<T>, key: T -> string, q: string)
    requires FirstMatch(s, key, q).Some?
    ensures s[FirstMatch(s, key, q).value] in s
    ensures RemoveValue(s, s[FirstMatch(s, key, q).value]) == RemoveAt(s, FirstMatch(s, key, q).value)
  {
  }

  /** With distinct names, removing the first match leaves nothing that matches. */
  lemma RemoveFirstOfDistinct<T>(s: seq<T>, key: T -> string, q: string)
    requires DistinctNames(s, key)
    requires FirstMatch(s, key, q).Some?
    ensures FirstMatch(RemoveAt(s, FirstMatch(s, key, q).value), key, q).None?
  {
    var i := FirstMatch(s, key, q).value;
    var r := RemoveAt(s, i);
    forall j | 0 <= j < |r|
      ensures !SameName(key(r[j]), q)
    {
      if j >= i {
        assert r[j] == s[j + 1];
        assert !SameName(key(s[i]), key(s[j + 1]));
      }
    }
  }

  /** Without distinct names, a later record with the same name survives removal of the first
      match and becomes the new first match. */
  lemma RemoveFirstExposesNext<T>(s: seq<T>, key: T -> string, q: string, k: nat)
    requires FirstMatch(s, key, q).Some?
    requires FirstMatch(s, key, q).value < k < |s| && SameName(key(s[k]), q)
    requires forall j :: FirstMatch(s, key, q).value < j < k ==> !SameName(key(s[j]), q)
    ensures FirstMatch(RemoveAt(s, FirstMatch(s, key, q).value), key, q) == Some(k - 1)
  {
    var i := FirstMatch(s, key, q).value;
    var r := RemoveAt(s, i);
    forall j | 0 <= j < k - 1
      ensures !SameName(key(r[j]), q)
    {
      if j >= i {
        assert r[j] == s[j + 1];
      }
    }
    assert r[k - 1] == s[k];
    FirstMatchAt(r, key, q, k - 1);
  }

  /** Replacing the first match of q with a record under a new name that no other record
      carries: q is no longer found and the new name is found at that position. */
  lemma Rename<T>(s: seq<T>, key: T -> string, q: string, u: T)
    requires DistinctNames(s, key)
    requires FirstMatch(s, key, q).Some?
    requires !SameName(key(u), q)
    requires forall j :: 0 <= j < |s| && j != FirstMatch(s, key, q).value ==> !SameName(key(s[j]), key(u))
    ensures FirstMatch(s[FirstMatch(s, key, q).value := u], key, q).None?
    ensures FirstMatch(s[FirstMatch(s, key, q).value := u], key, key(u)) == FirstMatch(s, key, q)
  {
    var i := FirstMatch(s, key, q).value;
    var t := s[i := u];
    forall j | 0 <= j < |t|
      ensures !SameName(key(t[j]), q)
    {
      if j != i {
        assert t[j] == s[j];
        assert !SameName(key(s[i]), key(s[j])) || !SameName(key(s[j]), key(s[i]));
      }
    }
    FirstMatchAt(t, key, key(u), i);
  }

  /** The records whose key does not match q, in their original order: the comprehension
      `[r for r in records if r.name.lower() != q.lower()]`. */
  function Without<T>(s: seq<T>, key: T -> string, q: string): (r: seq<T>)
    ensures |r| <= |s|
    ensures forall x :: x in r ==> x in s && !SameName(key(x), q)
    ensures forall x :: x in s && !SameName(key(x), q) ==> x in r
    decreases |s|
  {
    if |s| == 0 then []
    else
      assert s == [s[0]] + s[1..];
      if SameName(key(s[0]), q) then Without(s[1..], key, q)
      else [s[0]] + Without(s[1..], key, q)
  }

  /** Filtering distributes over concatenation: the survivors keep their relative order. */
  lemma {:induction false} WithoutAppend<T>(a: seq<T>, b: seq<T>, key: T -> string, q: string)
    ensures Without(a + b, key, q) == Without(a, key, q) + Without(b, key, q)
    decreases |a|
  {
    if |a| == 0 {
      assert a + b == b;
    } else {
      assert (a + b)[0] == a[0];
      assert (a + b)[1..] == a[1..] + b;
      WithoutAppend(a[1..], b, key, q);
    }
  }

  /** A list with no match is left as it is. */
  lemma {:induction false} WithoutNoMatch<T>(s: seq<T>, key: T -> string, q: string)
    requires FirstMatch(s, key, q).None?
    ensures Without(s, key, q) == s
    decreases |s|
  {
    if |s| > 0 {
      assert !SameName(key(s[0]), q);
      assert FirstMatch(s[1..], key, q).None? by {
        forall j | 0 <= j < |s| - 1
          ensures !SameName(key(s[1..][j]), q)
        {
          assert s[1..][j] == s[j + 1];
        }
      }
      WithoutNoMatch(s[1..], key, q);
    }
  }

  /** After the filter no record matches q, in any spelling of q. */
  lemma WithoutLeavesNoMatch<T>(s: seq<T>, key: T -> string, q: string, q': string)
    requires SameName(q, q')
    ensures FirstMatch(Without(s, key, q), key, q').None?
  {
    var r := Without(s, key, q);
    forall j | 0 <= j < |r|
      ensures !SameName(key(r[j]), q')
    {
      assert r[j] in r;
    }
  }

  /** Filtering twice by the same name is filtering once. */
  lemma WithoutIdempotent<T>(s: seq<T>, key: T -> string, q: string)
    ensures Without(Without(s, key, q), key, q) == Without(s, key, q)
  {
    WithoutLeavesNoMatch(s, key, q, q);
    WithoutNoMatch(Without(s, key, q), key, q);
  }

  /** The filter shrinks the list exactly when something matched. */
  lemma {:induction false} WithoutShrinks<T>(s: seq<T>, key: T -> string, q: string)
    ensures |Without(s, key, q)| < |s| <==> FirstMatch(s, key, q).Some?
    decreases |s|
  {
    if FirstMatch(s, key, q).None? {
      WithoutNoMatch(s, key, q);
    } else if |s| > 0 {
      if !SameName(key(s[0]), q) {
        WithoutShrinks(s[1..], key, q);
        var i := FirstMatch(s, key, q).value;
        assert i > 0 && s[1..][i - 1] == s[i];
        assert FirstMatch(s[1..], key, q).Some?;
      } else {
        assert |Without(s, key, q)| == |Without(s[1..], key, q)| <= |s| - 1;
      }
    }
  }
}
