/** Stored (event, version) entries and the stable ordering by version that
    `readFromStream` applies (Kotlin's `sortedBy` is a stable sort). */
module VersionOrder {

  /** One stored event together with the version it was appended at. */
  datatype Entry<E> = Entry(event: E, version: int)

  predicate SortedByVersion<E>(s: seq<Entry<E>>) {
    forall i, j :: 0 <= i < j < |s| ==> s[i].version <= s[j].version
  }

  /** The entries of `s` stored at version `v`, in their order in `s`. */
  function AtVersion<E>(s: seq<Entry<E>>, v: int): seq<Entry<E>>
    decreases |s|
  {
    if |s| == 0 then []
    else if s[0].version == v then [s[0]] + AtVersion(s[1..], v)
    else AtVersion(s[1..], v)
  }

  /** The number of leading entries of `s` whose version does not exceed `x`'s:
      `x` goes right after them, so it follows every entry with an equal version. */
  function InsertionPoint<E>(x: Entry<E>, s: seq<Entry<E>>): (k: nat)
    ensures k <= |s|
    ensures forall i :: 0 <= i < k ==> s[i].version <= x.version
    ensures k < |s| ==> x.version < s[k].version
    decreases |s|
  {
    if |s| == 0 || x.version < s[0].version then 0
    else 1 + InsertionPoint(x, s[1..])
  }

  function Insert<E>(x: Entry<E>, s: seq<Entry<E>>): (r: seq<Entry<E>>)
    ensures |r| == |s| + 1
    ensures SortedByVersion(s) ==> SortedByVersion(r)
  {
    var k := InsertionPoint(x, s);
    s[..k] + [x] + s[k..]
  }

  /** Stable sort by version (insertion sort, taking the input's entries from the back). */
  function SortByVersion<E>(s: seq<Entry<E>>): (r: seq<Entry<E>>)
    ensures |r| == |s|
    ensures SortedByVersion(r)
    decreases |s|
  {
    if |s| == 0 then []
    else Insert(s[|s| - 1], SortByVersion(s[..|s| - 1]))
  }

  lemma {:induction false} AtVersionConcat<E>(a: seq<Entry<E>>, b: seq<Entry<E>>, v: int)
    ensures AtVersion(a + b, v) == AtVersion(a, v) + AtVersion(b, v)
    decreases |a|
  {
    if |a| == 0 {
      assert a + b == b;
    } else {
      assert (a + b)[0] == a[0];
      assert (a + b)[1..] == a[1..] + b;
      AtVersionConcat(a[1..], b, v);
      if a[0].version == v {
        calc {
          AtVersion(a + b, v);
          [a[0]] + AtVersion(a[1..] + b, v);
          [a[0]] + (AtVersion(a[1..], v) + AtVersion(b, v));
          ([a[0]] + AtVersion(a[1..], v)) + AtVersion(b, v);
        }
      }
    }
  }

  lemma {:induction false} AtVersionAbove<E>(s: seq<Entry<E>>, v: int)
    requires forall i :: 0 <= i < |s| ==> v < s[i].version
    ensures AtVersion(s, v) == []
    decreases |s|
  {
    if |s| > 0 {
      AtVersionAbove(s[1..], v);
    }
  }

  lemma AtVersionSingle<E>(x: Entry<E>, v: int)
    ensures AtVersion([x], v) == (if x.version == v then [x] else [])
  {
    assert [x][1..] == [];
  }

  /** In a sorted sequence every entry after the insertion point has a larger version than `x`. */
  lemma InsertionPointBound<E>(x: Entry<E>, s: seq<Entry<E>>)
    requires SortedByVersion(s)
    ensures var post := s[InsertionPoint(x, s)..];
      forall i :: 0 <= i < |post| ==> x.version < post[i].version
  {
    var k := InsertionPoint(x, s);
    var post := s[k..];
    forall i | 0 <= i < |post|
      ensures x.version < post[i].version
    {
      assert post[i] == s[k + i];
      assert s[k].version <= s[k + i].version;
    }
  }

  /** Putting `x` in front of entries of larger version puts it after every entry of
      its own version: for each version `v`, the entries at `v` are the old ones in
      order, then `x` if it is at `v`. */
  lemma InsertAtVersion<E>(x: Entry<E>, pre: seq<Entry<E>>, post: seq<Entry<E>>, v: int)
    requires forall i :: 0 <= i < |post| ==> x.version < post[i].version
    ensures AtVersion(pre + [x] + post, v) == AtVersion(pre + post, v) + (if x.version == v then [x] else [])
  {
    AtVersionConcat(pre + [x], post, v);
    AtVersionConcat(pre, [x], v);
    AtVersionConcat(pre, post, v);
    AtVersionSingle(x, v);
    if x.version == v {
      AtVersionAbove(post, v);
    }
  }

  /** Inserting into a sorted sequence puts `x` after every entry of its own version. */
  lemma InsertIsStable<E>(x: Entry<E>, s: seq<Entry<E>>, v: int)
    requires SortedByVersion(s)
    ensures AtVersion(Insert(x, s), v) == AtVersion(s, v) + (if x.version == v then [x] else [])
  {
    var k := InsertionPoint(x, s);
    InsertionPointBound(x, s);
    assert s == s[..k] + s[k..];
    InsertAtVersion(x, s[..k], s[k..], v);
  }

  /** Stability: for every version, the entries carrying it keep their relative
      order. Together with `SortedByVersion` this makes the result the unique
      stable sort of `s`, and in particular a permutation of it. */
  lemma {:induction false} SortIsStable<E>(s: seq<Entry<E>>, v: int)
    ensures AtVersion(SortByVersion(s), v) == AtVersion(s, v)
    decreases |s|
  {
    if |s| > 0 {
      var n := |s| - 1;
      var last := [s[n]];
      SortIsStable(s[..n], v);
      InsertIsStable(s[n], SortByVersion(s[..n]), v);
      assert s == s[..n] + last;
      AtVersionConcat(s[..n], last, v);
      assert last[1..] == [];
    }
  }

  /** An entry whose version is at least every version in `s` is inserted at the end. */
  lemma {:induction false} InsertionPointAtEnd<E>(x: Entry<E>, s: seq<Entry<E>>)
    requires forall i :: 0 <= i < |s| ==> s[i].version <= x.version
    ensures InsertionPoint(x, s) == |s|
    decreases |s|
  {
    if |s| > 0 {
      InsertionPointAtEnd(x, s[1..]);
    }
  }

  /** Such an entry is simply appended. */
  lemma InsertAtEnd<E>(x: Entry<E>, s: seq<Entry<E>>)
    requires forall i :: 0 <= i < |s| ==> s[i].version <= x.version
    ensures Insert(x, s) == s + [x]
  {
    InsertionPointAtEnd(x, s);
    assert s[..|s|] == s;
  }

  /** Dropping the last entry of a sorted sequence leaves a sorted sequence none of
      whose versions exceeds the dropped entry's. */
  lemma SortedInit<E>(init: seq<Entry<E>>, x: Entry<E>)
    requires SortedByVersion(init + [x])
    ensures SortedByVersion(init)
    ensures forall i :: 0 <= i < |init| ==> init[i].version <= x.version
  {
    var s := init + [x];
    forall i, j | 0 <= i < j < |init|
      ensures init[i].version <= init[j].version
    {
      assert init[i] == s[i] && init[j] == s[j];
    }
    forall i | 0 <= i < |init|
      ensures init[i].version <= x.version
    {
      assert init[i] == s[i] && x == s[|init|];
    }
  }

  /** Sorting an already sorted sequence changes nothing. */
  lemma {:induction false} SortOfSorted<E>(s: seq<Entry<E>>)
    requires SortedByVersion(s)
    ensures SortByVersion(s) == s
    decreases |s|
  {
    if |s| > 0 {
      var n := |s| - 1;
      var init := s[..n];
      assert s == init + [s[n]];
      SortedInit(init, s[n]);
      SortOfSorted(init);
      InsertAtEnd(s[n], init);
    }
  }

  /** Inserting adds exactly `x` to the entries. */
  lemma InsertIsPermutation<E>(x: Entry<E>, s: seq<Entry<E>>)
    ensures multiset(Insert(x, s)) == multiset(s) + multiset{x}
  {
    var k := InsertionPoint(x, s);
    assert s == s[..k] + s[k..];
    assert Insert(x, s) == s[..k] + [x] + s[k..];
  }

  /** The sort is a permutation: it neither loses, duplicates nor invents entries. */
  lemma {:induction false} SortIsPermutation<E>(s: seq<Entry<E>>)
    ensures multiset(SortByVersion(s)) == multiset(s)
    decreases |s|
  {
    if |s| > 0 {
      var n := |s| - 1;
      var init := s[..n];
      assert s == init + [s[n]];
      assert multiset(s) == multiset(init) + multiset{s[n]};
      SortIsPermutation(init);
      InsertIsPermutation(s[n], SortByVersion(init));
    }
  }

  /** Sorting keeps an upper bound on the versions. */
  lemma SortBounded<E>(s: seq<Entry<E>>, c: int)
    requires forall i :: 0 <= i < |s| ==> s[i].version <= c
    ensures forall i :: 0 <= i < |SortByVersion(s)| ==> SortByVersion(s)[i].version <= c
  {
    var r := SortByVersion(s);
    SortIsPermutation(s);
    forall i | 0 <= i < |r|
      ensures r[i].version <= c
    {
      assert r[i] in multiset(r);
      assert r[i] in multiset(s);
      var j :| 0 <= j < |s| && s[j] == r[i];
    }
  }

  /** An entry at or above every version of `a` and `b` is appended after both. */
  lemma InsertAfterBounded<E>(y: Entry<E>, a: seq<Entry<E>>, b: seq<Entry<E>>, c: int)
    requires forall i :: 0 <= i < |a| ==> a[i].version <= c
    requires c <= y.version
    requires forall i :: 0 <= i < |b| ==> b[i].version <= y.version
    ensures Insert(y, a + b) == a + (b + [y])
  {
    var u := a + b;
    forall i | 0 <= i < |u|
      ensures u[i].version <= y.version
    {
      if i >= |a| {
        assert u[i] == b[i - |a|];
      }
    }
    InsertAtEnd(y, u);
    assert u + [y] == a + (b + [y]);
  }

  lemma SnocParts<E>(a: seq<Entry<E>>, b: seq<Entry<E>>, y: Entry<E>)
    ensures var st := a + (b + [y]);
      && |st| > 0
      && st[..|st| - 1] == a + b
      && st[|st| - 1] == y
  {
    var st := a + (b + [y]);
    assert st[..|st| - 1] == a + b;
  }

  /** One step of `SortAppendAbove`: an entry `y` at or above everything before it
      is placed last. */
  lemma SortAppendStep<E>(s: seq<Entry<E>>, init: seq<Entry<E>>, y: Entry<E>, c: int)
    requires forall i :: 0 <= i < |s| ==> s[i].version <= c
    requires c <= y.version
    requires forall i :: 0 <= i < |init| ==> init[i].version <= y.version
    requires SortByVersion(s + init) == SortByVersion(s) + init
    ensures SortByVersion(s + (init + [y])) == SortByVersion(s) + (init + [y])
  {
    SnocParts(s, init, y);
    SortBounded(s, c);
    InsertAfterBounded(y, SortByVersion(s), init, c);
  }

  /** Sorting entries followed by an already sorted run of entries whose versions
      are all at least every earlier version leaves that run, in order, at the end. */
  lemma {:induction false} SortAppendAbove<E>(s: seq<Entry<E>>, t: seq<Entry<E>>, c: int)
    requires forall i :: 0 <= i < |s| ==> s[i].version <= c
    requires forall i :: 0 <= i < |t| ==> c <= t[i].version
    requires SortedByVersion(t)
    ensures SortByVersion(s + t) == SortByVersion(s) + t
    decreases |t|
  {
    if |t| == 0 {
      assert s + t == s;
    } else {
      var n := |t| - 1;
      var init, y := t[..n], t[n];
      assert t == init + [y];
      SortedInit(init, y);
      forall i | 0 <= i < |init|
        ensures c <= init[i].version
      {
        assert init[i] == t[i];
      }
      SortAppendAbove(s, init, c);
      SortAppendStep(s, init, y, c);
    }
  }
}
