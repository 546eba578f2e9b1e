/** Substring search with the meaning of Python's `str.find`, `in` and `str.partition`. */
module Text {

  datatype Option<+T> = None | Some(value: T)

  datatype Result<+T, +E> = Ok(value: T) | Err(error: E)

  /** `p` occurs in `s` at index `i`. */
  predicate OccursAt(s: string, p: string, i: nat) {
    i + |p| <= |s| && s[i..i + |p|] == p
  }

  /** `s.find(p, start)`, with None for -1. */
  function Find(s: string, p: string, start: nat): (r: Option<nat>)
    ensures r.Some? ==> start <= r.value && OccursAt(s, p, r.value)
    ensures r.Some? ==> forall j :: start <= j < r.value ==> !OccursAt(s, p, j)
    ensures r.None? ==> forall j :: start <= j ==> !OccursAt(s, p, j)
    decreases if start <= |s| then |s| - start + 1 else 0
  {
    if start > |s| then None
    else if OccursAt(s, p, start) then Some(start)
    else Find(s, p, start + 1)
  }

  /** `p in s` */
  predicate Contains(s: string, p: string) {
    Find(s, p, 0).Some?
  }

  /** `s.partition(sep)` without the separator itself: `(s, "")` when absent. */
  function Partition(s: string, sep: string): (string, string) {
    var i := Find(s, sep, 0);
    if i.None? then (s, "") else (s[..i.value], s[i.value + |sep|..])
  }

  /** A leftmost occurrence is what `Find` returns. */
  lemma FindIs(s: string, p: string, start: nat, i: nat)
    requires start <= i && OccursAt(s, p, i)
    requires forall j :: start <= j < i ==> !OccursAt(s, p, j)
    ensures Find(s, p, start) == Some(i)
  {
    assert Find(s, p, start).Some?;
    assert OccursAt(s, p, Find(s, p, start).value);
  }

  /** One differing (or missing) character rules an occurrence out. */
  lemma Mismatch(s: string, p: string, i: nat, k: nat)
    requires k < |p| && (i + k >= |s| || s[i + k] != p[k])
    ensures !OccursAt(s, p, i)
  {
    assert i + |p| <= |s| ==> s[i..i + |p|][k] == s[i + k];
  }

  /** Texts that agree on a window agree on an occurrence in it. */
  lemma SameWindow(s: string, i: nat, t: string, j: nat, p: string)
    requires i + |p| <= |s| && j + |p| <= |t|
    requires forall k :: i <= k < i + |p| ==> s[k] == t[k - i + j]
    ensures OccursAt(s, p, i) == OccursAt(t, p, j)
  {
    var a, b := s[i..i + |p|], t[j..j + |p|];
    forall k | 0 <= k < |a| ensures a[k] == b[k] {
      assert s[i + k] == t[i + k - i + j];
    }
    assert a == b;
  }

  /** An occurrence is decided by the text it spans. */
  lemma OccursInSlice(s: string, p: string, lo: nat, i: nat)
    requires lo <= |s|
    ensures OccursAt(s[lo..], p, i) == OccursAt(s, p, lo + i)
  {
    if lo + i + |p| <= |s| {
      SameWindow(s[lo..], i, s, lo + i, p);
    }
  }

  /** Searching from an offset is searching the rest of the text. */
  lemma FindInRest(s: string, p: string, lo: nat)
    requires lo <= |s|
    ensures Find(s, p, lo).None? ==> Find(s[lo..], p, 0).None?
    ensures Find(s, p, lo).Some? ==> Find(s[lo..], p, 0) == Some(Find(s, p, lo).value - lo)
  {
    forall i: nat ensures OccursAt(s[lo..], p, i) == OccursAt(s, p, lo + i) {
      OccursInSlice(s, p, lo, i);
    }
    var r := Find(s, p, lo);
    if r.Some? {
      FindIs(s[lo..], p, 0, r.value - lo);
    }
  }

  /** Two texts that agree up to the end of the first occurrence have the same first occurrence. */
  lemma FindSharesPrefix(s: string, t: string, p: string, i: nat)
    requires Find(s, p, 0) == Some(i)
    requires i + |p| <= |t| && forall k :: 0 <= k < i + |p| ==> t[k] == s[k]
    ensures Find(t, p, 0) == Some(i)
  {
    forall j: nat | j <= i ensures OccursAt(t, p, j) == OccursAt(s, p, j) {
      SameWindow(t, j, s, j, p);
    }
    FindIs(t, p, 0, i);
  }

  lemma Associate<T>(a: seq<T>, b: seq<T>, c: seq<T>)
    ensures a + (b + c) == (a + b) + c
  {
  }

  lemma SuffixIsRest(head: string, rest: string)
    ensures (head + rest)[|head|..] == rest
  {
  }

  lemma DropBehind(head: string, rest: string, e: nat)
    requires e <= |rest|
    ensures (head + rest)[|head| + e..] == rest[e..]
  {
  }

  /** Searching behind an offset is searching the text that follows it. */
  lemma FindInSuffix(s: string, p: string, lo: nat, rest: string)
    requires lo <= |s| && s[lo..] == rest && Find(rest, p, 0).Some?
    ensures Find(s, p, lo) == Some(lo + Find(rest, p, 0).value)
  {
    FindInRest(s, p, lo);
  }
}
