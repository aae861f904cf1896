/** Merging lists of records under a key: the first record of each key stays.
    Used for the union of responses, where the key is a string. */
module Merging {
  import opened Ordering
  import opened Bytes

  ghost predicate NoRepeats<T(!new)>(key: T -> Str, s: seq<T>) {
    forall i, j :: 0 <= i < j < |s| ==> key(s[i]) != key(s[j])
  }

  ghost predicate HasKey<T(!new)>(key: T -> Str, rrs: seq<T>, k: Str) {
    exists rr :: rr in rrs && key(rr) == k
  }

  /** The records of `src` that are kept: the first of each key, in order. */
  ghost function Merged<T(!new)>(key: T -> Str, src: seq<T>): seq<T> {
    if src == [] then []
    else
      var p, rr := src[..|src| - 1], src[|src| - 1];
      Merged(key, p) + if HasKey(key, p, key(rr)) then [] else [rr]
  }

  lemma MergedNext<T(!new)>(key: T -> Str, src: seq<T>, rr: T)
    ensures Merged(key, src + [rr]) == Merged(key, src) + if HasKey(key, src, key(rr)) then [] else [rr]
  {
    assert (src + [rr])[..|src|] == src;
  }

  lemma HasKeyNext<T(!new)>(key: T -> Str, rrs: seq<T>, rr: T, k: Str)
    ensures HasKey(key, rrs + [rr], k) <==> HasKey(key, rrs, k) || k == key(rr)
  {
    assert rr in rrs + [rr];
    if HasKey(key, rrs, k) {
      var x :| x in rrs && key(x) == k;
      assert x in rrs + [rr];
    }
  }

  /** Merging loses no key and invents no record. */
  lemma {:induction false} MergedKeys<T(!new)>(key: T -> Str, src: seq<T>, k: Str)
    ensures HasKey(key, Merged(key, src), k) <==> HasKey(key, src, k)
    ensures forall rr :: rr in Merged(key, src) ==> rr in src
  {
    if src != [] {
      var p, rr := src[..|src| - 1], src[|src| - 1];
      assert src == p + [rr];
      MergedKeys(key, p, k);
      HasKeyNext(key, p, rr, k);
      HasKeyNext(key, Merged(key, p), rr, k);
    }
  }

  /** Answer and authority section together hold the merged records, and no
      key twice. */
  ghost predicate IsUnion<T(!new)>(key: T -> Str, src: seq<T>, section: seq<T>, other: seq<T>) {
    SameElements(section + other, Merged(key, src)) && NoRepeats(key, section + other)
  }

  ghost predicate SeenKeys<T(!new)>(key: T -> Str, seen: set<Str>, src: seq<T>) {
    forall k :: k in seen <==> HasKey(key, src, k)
  }

  lemma InsertedElements<T(!new)>(section: seq<T>, other: seq<T>, rr: T)
    ensures forall x :: x in section + [rr] + other <==> x in section + other || x == rr
  {
    assert rr in section + [rr] + other;
    forall x | x in section + other ensures x in section + [rr] + other {
      assert x in section || x in other;
    }
  }

  lemma NoRepeatsWithNew<T(!new)>(key: T -> Str, section: seq<T>, other: seq<T>, rr: T)
    requires NoRepeats(key, section + other) && !HasKey(key, section + other, key(rr))
    ensures NoRepeats(key, section + [rr] + other)
  {
    var s, t, n := section + other, section + [rr] + other, |section|;
    forall i | 0 <= i < |s| ensures key(s[i]) != key(rr) { assert s[i] in s; }
    forall i, j | 0 <= i < j < |t| ensures key(t[i]) != key(t[j]) {
      if j < n {
        assert t[i] == s[i] && t[j] == s[j];
      } else if j == n {
        assert t[i] == s[i] && t[j] == rr;
      } else if i < n {
        assert t[i] == s[i] && t[j] == s[j - 1];
      } else if i == n {
        assert t[i] == rr && t[j] == s[j - 1];
      } else {
        assert t[i] == s[i - 1] && t[j] == s[j - 1];
      }
    }
  }

  lemma KeepNew<T(!new)>(key: T -> Str, src: seq<T>, section: seq<T>, other: seq<T>, rr: T)
    requires IsUnion(key, src, section, other) && !HasKey(key, src, key(rr))
    ensures IsUnion(key, src + [rr], section + [rr], other)
  {
    MergedNext(key, src, rr);
    MergedKeys(key, src, key(rr));
    InsertedElements(section, other, rr);
    NoRepeatsWithNew(key, section, other, rr);
  }

  lemma SeeNew<T(!new)>(key: T -> Str, seen: set<Str>, src: seq<T>, rr: T)
    requires SeenKeys(key, seen, src)
    ensures SeenKeys(key, seen + {key(rr)}, src + [rr])
    ensures key(rr) in seen ==> SeenKeys(key, seen, src + [rr])
  {
    forall k ensures HasKey(key, src + [rr], k) <==> HasKey(key, src, k) || k == key(rr) {
      HasKeyNext(key, src, rr, k);
    }
  }

  lemma SwapNoRepeats<T(!new)>(key: T -> Str, a: seq<T>, b: seq<T>)
    requires NoRepeats(key, a + b)
    ensures NoRepeats(key, b + a)
  {
    var s, t := a + b, b + a;
    forall i, j | 0 <= i < j < |t| ensures key(t[i]) != key(t[j]) {
      if j < |b| {
        assert t[i] == s[|a| + i] && t[j] == s[|a| + j];
      } else if i < |b| {
        assert t[i] == s[|a| + i] && t[j] == s[j - |b|];
      } else {
        assert t[i] == s[i - |b|] && t[j] == s[j - |b|];
      }
    }
  }

  lemma SwapSections<T(!new)>(key: T -> Str, src: seq<T>, section: seq<T>, other: seq<T>)
    requires IsUnion(key, src, section, other)
    ensures IsUnion(key, src, other, section)
  {
    SwapNoRepeats(key, section, other);
    forall x ensures x in other + section <==> x in section + other {}
  }

  lemma MergedOne<T(!new)>(key: T -> Str, a: T)
    ensures Merged(key, [a]) == [a]
  {
    MergedNext(key, [], a);
    assert [] + [a] == [a];
  }

  /** Of two records with one key the first is kept. */
  lemma MergedPair<T(!new)>(key: T -> Str, a: T, b: T)
    requires key(a) == key(b)
    ensures Merged(key, [a] + [b]) == [a]
  {
    MergedOne(key, a);
    MergedNext(key, [a], b);
    assert HasKey(key, [a], key(b)) by { assert a in [a]; }
    assert [a] + [] == [a];
  }
}
