/** Byte helpers of the callback header: a lexicographic comparison of two
    byte ranges (`compare_mem`) and a forward byte copy (`copy_mem`). */
module Memory {

  /** The value `compare_mem` computes for two ranges of equal length:
      -1 or 1 according to the first byte at which they differ, 0 when none does. */
  function Compare(l: seq<bv8>, r: seq<bv8>): int
    requires |l| == |r|
  {
    if |l| == 0 then 0
    else if l[0] < r[0] then -1
    else if l[0] > r[0] then 1
    else Compare(l[1..], r[1..])
  }

  /** The result is always one of -1, 0, 1. */
  lemma {:induction false} CompareRange(l: seq<bv8>, r: seq<bv8>)
    requires |l| == |r|
    ensures Compare(l, r) in {-1, 0, 1}
  {
    if |l| > 0 && l[0] == r[0] {
      CompareRange(l[1..], r[1..]);
    }
  }

  /** 0 exactly when all bytes agree. */
  lemma {:induction false} CompareZeroIffEqual(l: seq<bv8>, r: seq<bv8>)
    requires |l| == |r|
    ensures Compare(l, r) == 0 <==> l == r
  {
    if |l| > 0 {
      CompareZeroIffEqual(l[1..], r[1..]);
      if l[0] == r[0] && l[1..] == r[1..] {
        assert l == [l[0]] + l[1..] && r == [r[0]] + r[1..];
      }
    }
  }

  /** Swapping the arguments negates the result. */
  lemma {:induction false} CompareAntisymmetric(l: seq<bv8>, r: seq<bv8>)
    requires |l| == |r|
    ensures Compare(r, l) == -Compare(l, r)
  {
    if |l| > 0 && l[0] == r[0] {
      CompareAntisymmetric(l[1..], r[1..]);
    }
  }

  /** A common prefix followed by a differing byte at `k` decides the result. */
  lemma {:induction false} CompareAt(l: seq<bv8>, r: seq<bv8>, k: nat)
    requires |l| == |r| && k < |l|
    requires l[..k] == r[..k] && l[k] != r[k]
    ensures Compare(l, r) == if l[k] < r[k] then -1 else 1
  {
    if k > 0 {
      assert l[0] == l[..k][0] && r[0] == r[..k][0];
      assert l[1..][..k - 1] == l[..k][1..] && r[1..][..k - 1] == r[..k][1..];
      CompareAt(l[1..], r[1..], k - 1);
    }
  }

  lemma ConsPrefix(s: seq<bv8>, j: nat)
    requires j < |s|
    ensures s[..j + 1] == [s[0]] + s[1..][..j]
  {
    assert s[1..][..j] == s[1..j + 1];
  }

  /** A nonzero result comes from a first differing byte. */
  lemma {:induction false} CompareWitness(l: seq<bv8>, r: seq<bv8>) returns (k: nat)
    requires |l| == |r| && Compare(l, r) != 0
    ensures k < |l| && l[..k] == r[..k] && l[k] != r[k]
    ensures Compare(l, r) == -1 <==> l[k] < r[k]
  {
    if l[0] < r[0] {
      k := 0;
      assert Compare(l, r) == -1;
    } else if l[0] > r[0] {
      k := 0;
      assert Compare(l, r) == 1;
    } else {
      var j := CompareWitness(l[1..], r[1..]);
      k := j + 1;
      ConsPrefix(l, j);
      ConsPrefix(r, j);
    }
  }

  /** -1 exactly when the ranges have a common prefix followed by a smaller
      byte on the left, 1 exactly when it is followed by a larger one. */
  lemma CompareFirstDifference(l: seq<bv8>, r: seq<bv8>)
    requires |l| == |r|
    ensures Compare(l, r) == -1 <==> exists k :: 0 <= k < |l| && l[..k] == r[..k] && l[k] < r[k]
    ensures Compare(l, r) == 1 <==> exists k :: 0 <= k < |l| && l[..k] == r[..k] && l[k] > r[k]
  {
    if Compare(l, r) != 0 {
      var k := CompareWitness(l, r);
    }
    forall k | 0 <= k < |l| && l[..k] == r[..k] && l[k] != r[k]
      ensures Compare(l, r) == if l[k] < r[k] then -1 else 1
    {
      CompareAt(l, r, k);
    }
  }

  /** `Compare(_, _) < 0` is transitive, so it is a strict order on ranges of one length. */
  lemma {:induction false} CompareTransitive(a: seq<bv8>, b: seq<bv8>, c: seq<bv8>)
    requires |a| == |b| == |c|
    requires Compare(a, b) < 0 && Compare(b, c) < 0
    ensures Compare(a, c) < 0
  {
    if a[0] == b[0] && b[0] == c[0] {
      CompareTransitive(a[1..], b[1..], c[1..]);
    }
  }

  /** The loop of `compare_mem`: it reads `size` bytes of each side and stops
      at the first pair that differs. */
  method CompareMem(lhs: array<bv8>, rhs: array<bv8>, size: nat) returns (c: int)
    requires size <= lhs.Length && size <= rhs.Length
    ensures c == Compare(lhs[..size], rhs[..size])
  {
    var i := 0;
    while i < size
      invariant 0 <= i <= size
      invariant Compare(lhs[..size], rhs[..size]) == Compare(lhs[i..size], rhs[i..size])
    {
      if lhs[i] < rhs[i] {
        return -1;
      }
      if lhs[i] > rhs[i] {
        return 1;
      }
      assert lhs[i..size][1..] == lhs[i + 1..size] && rhs[i..size][1..] == rhs[i + 1..size];
      i := i + 1;
    }
    return 0;
  }

  /** The loop of `copy_mem`: afterwards the first `size` bytes of `dst` are
      the first `size` bytes `src` held before, and the rest of `dst` is as it was.
      This holds as well when `dst` and `src` are the same buffer. */
  method CopyMem(dst: array<bv8>, src: array<bv8>, size: nat)
    requires size <= dst.Length && size <= src.Length
    modifies dst
    ensures dst[..size] == old(src[..size])
    ensures dst[size..] == old(dst[size..])
  {
    var i := 0;
    while i < size
      invariant 0 <= i <= size
      invariant forall j :: 0 <= j < i ==> dst[j] == old(src[j])
      invariant forall j :: i <= j < dst.Length ==> dst[j] == old(dst[j])
      invariant forall j :: i <= j < size ==> src[j] == old(src[j])
    {
      dst[i] := src[i];
      i := i + 1;
    }
  }
}
