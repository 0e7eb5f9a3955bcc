/** First-match search over a sequence: the reference against which the
    early-return searches of the analyzer are stated. */
module Search {

  /** The position of the first element satisfying `p`, or `|xs|` when no
      element does. */
  function FirstIndex<T>(xs: seq<T>, p: T -> bool): (k: nat)
    ensures k <= |xs|
    ensures forall j :: 0 <= j < k ==> !p(xs[j])
    ensures k < |xs| ==> p(xs[k])
    decreases |xs|
  {
    if xs == [] || p(xs[0]) then 0 else 1 + FirstIndex(xs[1..], p)
  }

  /** The two properties of `FirstIndex` determine it. */
  lemma FirstIndexUnique<T>(xs: seq<T>, p: T -> bool, k: nat)
    requires k <= |xs|
    requires forall j :: 0 <= j < k ==> !p(xs[j])
    requires k < |xs| ==> p(xs[k])
    ensures k == FirstIndex(xs, p)
  {
  }

  /** Searching a concatenation searches the left part first and only then
      the right part. */
  lemma FirstIndexAppend<T>(a: seq<T>, b: seq<T>, p: T -> bool)
    ensures FirstIndex(a + b, p)
            == if FirstIndex(a, p) < |a| then FirstIndex(a, p) else |a| + FirstIndex(b, p)
  {
    var fa := FirstIndex(a, p);
    var ab := a + b;
    if fa < |a| {
      assert forall j :: 0 <= j <= fa ==> ab[j] == a[j];
      FirstIndexUnique(ab, p, fa);
    } else {
      var fb := FirstIndex(b, p);
      assert forall j :: 0 <= j < |a| ==> ab[j] == a[j];
      assert forall j :: 0 <= j < |b| ==> ab[|a| + j] == b[j];
      FirstIndexUnique(ab, p, |a| + fb);
    }
  }

  /** A prefix with no match is skipped over. */
  lemma FirstIndexSkip<T>(a: seq<T>, b: seq<T>, p: T -> bool)
    requires forall j :: 0 <= j < |a| ==> !p(a[j])
    ensures FirstIndex(a + b, p) == |a| + FirstIndex(b, p)
  {
    FirstIndexUnique(a, p, |a|);
    FirstIndexAppend(a, b, p);
  }

  /** Concatenation is associative. */
  lemma AppendAssoc<T>(a: seq<T>, b: seq<T>, c: seq<T>)
    ensures a + (b + c) == a + b + c
  {
  }

  /** Every element left after deleting position `k` was in the sequence. */
  lemma MemberOfRemoved<T>(s: seq<T>, k: nat, x: T)
    requires k < |s| && x in s[..k] + s[k + 1..]
    ensures x in s
  {
    var r := s[..k] + s[k + 1..];
    var j :| 0 <= j < |r| && r[j] == x;
    if j < k {
      assert s[j] == x;
    } else {
      assert s[j + 1] == x;
    }
  }

  /** A slice of the tail is a slice of the whole, one position on. */
  lemma SliceOfTail<T>(s: seq<T>, a: nat, b: nat)
    requires 1 <= a <= b <= |s|
    ensures s[1..][a - 1..b - 1] == s[a..b]
  {
  }
}
