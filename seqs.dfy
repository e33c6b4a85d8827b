/** Sequence facts shared by the two file-list models: deleting entries and relative order. */
module Seqs {

  /** `a` is what is left of `b` after deleting some of its entries; the rest keep their relative order. */
  predicate Sub<T(==)>(a: seq<T>, b: seq<T>)
    decreases |b|
  {
    a == [] || (b != [] && ((a[0] == b[0] && Sub(a[1..], b[1..])) || Sub(a, b[1..])))
  }

  /** A prefix of a non-empty sequence is its head followed by a prefix of its tail. */
  lemma PrefixCons<T>(s: seq<T>, n: nat)
    requires n < |s|
    ensures s[..n + 1] == [s[0]] + s[1..][..n]
  {
  }

  /** `del s[k]`. */
  function RemoveAt<T>(s: seq<T>, k: nat): (r: seq<T>)
    requires k < |s|
    ensures |r| == |s| - 1
    ensures forall i :: 0 <= i < k ==> r[i] == s[i]
    ensures forall i :: k <= i < |r| ==> r[i] == s[i + 1]
  {
    s[..k] + s[k + 1..]
  }

  /** Every entry of `s` differs from every other. */
  predicate Distinct<T(==)>(s: seq<T>) {
    forall i, j :: 0 <= i < j < |s| ==> s[i] != s[j]
  }

  lemma {:induction false} SubRefl<T>(s: seq<T>)
    ensures Sub(s, s)
    decreases |s|
  {
    if s != [] {
      SubRefl(s[1..]);
    }
  }

  lemma {:induction false} SubTrans<T>(a: seq<T>, b: seq<T>, c: seq<T>)
    requires Sub(a, b) && Sub(b, c)
    ensures Sub(a, c)
    decreases |c|
  {
    if a == [] {
    } else if a[0] == b[0] && Sub(a[1..], b[1..]) {
      if b[0] == c[0] && Sub(b[1..], c[1..]) {
        SubTrans(a[1..], b[1..], c[1..]);
      } else {
        SubTrans(a, b, c[1..]);
      }
    } else {
      if b[0] == c[0] && Sub(b[1..], c[1..]) {
        SubTrans(a, b[1..], c[1..]);
      } else {
        SubTrans(a, b, c[1..]);
      }
    }
  }

  /** Deleting one entry keeps the others in their relative order. */
  lemma {:induction false} RemoveAtSub<T>(s: seq<T>, k: nat)
    requires k < |s|
    ensures Sub(RemoveAt(s, k), s)
    decreases k
  {
    if k == 0 {
      assert RemoveAt(s, 0) == s[1..];
      SubRefl(s[1..]);
    } else {
      assert RemoveAt(s, k)[1..] == RemoveAt(s[1..], k - 1);
      RemoveAtSub(s[1..], k - 1);
    }
  }

  /** Deleting an entry of a sequence of distinct entries leaves distinct entries. */
  lemma RemoveAtDistinct<T>(s: seq<T>, k: nat)
    requires k < |s| && Distinct(s)
    ensures Distinct(RemoveAt(s, k))
  {
    var r := RemoveAt(s, k);
    forall i, j | 0 <= i < j < |r|
      ensures r[i] != r[j]
    {
      var i' := if i < k then i else i + 1;
      var j' := if j < k then j else j + 1;
      assert r[i] == s[i'] && r[j] == s[j'];
    }
  }

  /** An entry other than the deleted one remains. */
  lemma RemoveAtKeeps<T>(s: seq<T>, k: nat, x: T)
    requires k < |s| && x in s && x != s[k]
    ensures x in RemoveAt(s, k)
  {
    var i :| 0 <= i < |s| && s[i] == x;
    if i < k {
      assert RemoveAt(s, k)[i] == x;
    } else {
      assert RemoveAt(s, k)[i - 1] == x;
    }
  }

  /**
   * The entries of `s` whose membership in `keep` is `inside`, in their
   * order: a list comprehension with a membership condition.
   */
  function Select<T>(s: seq<T>, keep: set<T>, inside: bool): (r: seq<T>)
    ensures |r| <= |s|
    ensures forall i :: 0 <= i < |r| ==> (r[i] in keep <==> inside)
  {
    if s == [] then []
    else (if (s[0] in keep) == inside then [s[0]] else []) + Select(s[1..], keep, inside)
  }

  lemma {:induction false} SelectAppend<T>(a: seq<T>, b: seq<T>, keep: set<T>, inside: bool)
    ensures Select(a + b, keep, inside) == Select(a, keep, inside) + Select(b, keep, inside)
    decreases |a|
  {
    if a == [] {
      assert a + b == b;
    } else {
      assert (a + b)[0] == a[0] && (a + b)[1..] == a[1..] + b;
      SelectAppend(a[1..], b, keep, inside);
    }
  }

  /** What a selection keeps stays in its relative order. */
  lemma {:induction false} SelectSub<T>(s: seq<T>, keep: set<T>, inside: bool)
    ensures Sub(Select(s, keep, inside), s)
    decreases |s|
  {
    if s != [] {
      SelectSub(s[1..], keep, inside);
      var rest := Select(s[1..], keep, inside);
      if (s[0] in keep) == inside {
        assert Select(s, keep, inside) == [s[0]] + rest;
        assert Select(s, keep, inside)[1..] == rest;
      } else {
        assert Select(s, keep, inside) == rest;
      }
    }
  }

  /** A selection keeps every occurrence of an accepted entry and none of a rejected one. */
  lemma {:induction false} SelectMultiset<T>(s: seq<T>, keep: set<T>, inside: bool, x: T)
    ensures multiset(Select(s, keep, inside))[x] == if (x in keep) == inside then multiset(s)[x] else 0
    decreases |s|
  {
    if s != [] {
      SelectMultiset(s[1..], keep, inside, x);
      assert s == [s[0]] + s[1..];
      assert multiset(s) == multiset([s[0]]) + multiset(s[1..]);
    }
  }

  /** Every entry is either inside `keep` or outside it. */
  lemma {:induction false} SelectSplit<T>(s: seq<T>, keep: set<T>)
    ensures |Select(s, keep, true)| + |Select(s, keep, false)| == |s|
    decreases |s|
  {
    if s != [] {
      SelectSplit(s[1..], keep);
    }
  }
}
