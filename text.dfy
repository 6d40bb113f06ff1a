/**
 * String searching and the subsequence relation, shared by the template
 * renderer and the plaintext derivation.
 */
module Text {

  /** A value that may be missing. */
  datatype Option<T> = None | Some(value: T)

  /** `p` occurs in `s` starting at index `i`. */
  predicate OccursAt(s: string, p: string, i: int) {
    0 <= i && i + |p| <= |s| && s[i..i + |p|] == p
  }

  /** No occurrence of `p` starts anywhere in `s`. */
  predicate Absent(s: string, p: string) {
    forall i :: 0 <= i <= |s| ==> !OccursAt(s, p, i)
  }

  /** String.prototype.endsWith. */
  predicate EndsWith(s: string, suffix: string) {
    |suffix| <= |s| && s[|s| - |suffix|..] == suffix
  }

  /** The leftmost occurrence of `p` in `s` at or after `from`, as a regular expression search finds it. */
  function FindFirst(s: string, p: string, from: nat): (r: Option<nat>)
    ensures r.Some? ==> from <= r.value && OccursAt(s, p, r.value)
    decreases |s| - from
  {
    if from + |p| > |s| then None
    else if s[from..from + |p|] == p then Some(from)
    else FindFirst(s, p, from + 1)
  }

  /** FindFirst finds the leftmost occurrence, and finds none only when there is none. */
  lemma {:induction false} FindFirstLeftmost(s: string, p: string, from: nat)
    ensures FindFirst(s, p, from).Some? ==> forall k :: from <= k < FindFirst(s, p, from).value ==> !OccursAt(s, p, k)
    ensures FindFirst(s, p, from).None? ==> forall k :: from <= k ==> !OccursAt(s, p, k)
    decreases |s| - from
  {
    if from + |p| <= |s| && s[from..from + |p|] != p {
      FindFirstLeftmost(s, p, from + 1);
    }
  }

  /** The rightmost occurrence of `p` in `s` starting at or after `lo`. */
  function FindLast(s: string, p: string, lo: nat): (r: Option<nat>)
    ensures r.Some? ==> lo <= r.value && OccursAt(s, p, r.value)
  {
    if |p| > |s| then None else LastAtOrBelow(s, p, lo, |s| - |p|)
  }

  /** Scans downwards from `hi` to `lo` for an occurrence of `p`. */
  function LastAtOrBelow(s: string, p: string, lo: nat, hi: int): (r: Option<nat>)
    requires hi + |p| <= |s|
    ensures r.Some? ==> lo <= r.value <= hi && OccursAt(s, p, r.value)
    decreases hi - lo
  {
    if hi < lo then None
    else if s[hi..hi + |p|] == p then Some(hi)
    else LastAtOrBelow(s, p, lo, hi - 1)
  }

  lemma {:induction false} LastAtOrBelowRightmost(s: string, p: string, lo: nat, hi: int)
    requires hi + |p| <= |s|
    ensures LastAtOrBelow(s, p, lo, hi).Some? ==>
      forall k :: LastAtOrBelow(s, p, lo, hi).value < k <= hi ==> !OccursAt(s, p, k)
    ensures LastAtOrBelow(s, p, lo, hi).None? ==> forall k :: lo <= k <= hi ==> !OccursAt(s, p, k)
    decreases hi - lo
  {
    if lo <= hi && s[hi..hi + |p|] != p {
      LastAtOrBelowRightmost(s, p, lo, hi - 1);
    }
  }

  /** FindLast finds the rightmost occurrence, and finds none only when there is none. */
  lemma FindLastRightmost(s: string, p: string, lo: nat)
    ensures FindLast(s, p, lo).Some? ==> forall k :: FindLast(s, p, lo).value < k ==> !OccursAt(s, p, k)
    ensures FindLast(s, p, lo).None? ==> forall k :: lo <= k ==> !OccursAt(s, p, k)
  {
    if |p| <= |s| {
      LastAtOrBelowRightmost(s, p, lo, |s| - |p|);
    }
  }

  /** `a` can be obtained from `b` by deleting characters. */
  predicate Subseq(a: string, b: string)
    decreases |b|
  {
    if a == [] then true
    else if b == [] then false
    else (a[0] == b[0] && Subseq(a[1..], b[1..])) || Subseq(a, b[1..])
  }

  lemma {:induction false} SubseqRefl(s: string)
    ensures Subseq(s, s)
    decreases |s|
  {
    if s != [] {
      SubseqRefl(s[1..]);
    }
  }

  /** Deleting characters twice is deleting characters. */
  lemma {:induction false} SubseqTrans(a: string, b: string, c: string)
    requires Subseq(a, b) && Subseq(b, c)
    ensures Subseq(a, c)
    decreases |c|
  {
    if a != [] {
      if Subseq(b, c[1..]) {
        SubseqTrans(a, b, c[1..]);
      } else if a[0] == b[0] && Subseq(a[1..], b[1..]) {
        SubseqTrans(a[1..], b[1..], c[1..]);
      } else {
        SubseqTrans(a, b[1..], c[1..]);
      }
    }
  }

  /** A suffix is a subsequence. */
  lemma {:induction false} SubseqSuffix(s: string, k: nat)
    requires k <= |s|
    ensures Subseq(s[k..], s)
    decreases k
  {
    if k == 0 {
      SubseqRefl(s);
    } else {
      SubseqSuffix(s[1..], k - 1);
      assert s[1..][k - 1..] == s[k..];
    }
  }

  /** Cutting a block out of the middle leaves a subsequence. */
  lemma {:induction false} SubseqCut(s: string, i: nat, j: nat)
    requires i <= j <= |s|
    ensures Subseq(s[..i] + s[j..], s)
    decreases i
  {
    if i == 0 {
      assert s[..i] + s[j..] == s[j..];
      SubseqSuffix(s, j);
    } else {
      SubseqCut(s[1..], i - 1, j - 1);
      var t := s[..i] + s[j..];
      assert t[0] == s[0];
      assert t[1..] == s[1..][..i - 1] + s[1..][j - 1..];
    }
  }

  /** A subsequence holds no character its source lacks. */
  lemma {:induction false} SubseqChars(a: string, b: string, c: char)
    requires Subseq(a, b)
    requires c !in b
    ensures c !in a
    decreases |b|
  {
    if a != [] {
      if a[0] == b[0] && Subseq(a[1..], b[1..]) {
        SubseqChars(a[1..], b[1..], c);
        assert a == [a[0]] + a[1..];
      } else {
        SubseqChars(a, b[1..], c);
      }
    }
  }

  /** Array.prototype.join(sep) of strings. */
  function Join(parts: seq<string>, sep: string): (r: string)
    ensures parts == [] ==> r == ""
    ensures |parts| == 1 ==> r == parts[0]
  {
    if parts == [] then "" else if |parts| == 1 then parts[0] else parts[0] + sep + Join(parts[1..], sep)
  }

  /** One more part is appended behind the separator: the parts stay in order. */
  lemma {:induction false} JoinAppend(parts: seq<string>, p: string, sep: string)
    requires parts != []
    ensures Join(parts + [p], sep) == Join(parts, sep) + sep + p
    decreases |parts|
  {
    if |parts| > 1 {
      assert (parts + [p])[1..] == parts[1..] + [p];
      JoinAppend(parts[1..], p, sep);
    }
  }
}
