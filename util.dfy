/**
 * Value types and sequence helpers shared by every part of the blob store model:
 * bytes, optional values, results carrying the Java exception a call would throw,
 * concatenation of chunks, splitting into fixed-size chunks, filtering, and
 * prefix/suffix tests on strings.
 */
module Util {

  /** A byte of blob content. */
  type byte = bv8

  /** Java's `Long.MAX_VALUE`. */
  const LONG_MAX: int := 0x7FFF_FFFF_FFFF_FFFF

  datatype Option<+T> = None | Some(value: T)

  /**
   * The exceptions the modelled code throws or lets escape, by kind.
   * `BlobStoreException` carries the blob id it is about, when there is one.
   */
  datatype Failure =
    | BlobStoreException(blobId: Option<string>)
    | RuntimeException
    | IOException
    | IllegalArgument
    | IllegalState
    | NullPointer
    | IndexOutOfBounds
    | UnsupportedOperation

  /** The outcome of a Java call: a value, or the exception it throws. */
  datatype Result<+T> = Ok(value: T) | Err(failure: Failure)

  /** The concatenation of a sequence of chunks, in order. */
  function Concat<T>(chunks: seq<seq<T>>): seq<T>
  {
    if chunks == [] then [] else chunks[0] + Concat(chunks[1..])
  }

  /** Appending one chunk appends its elements at the end. */
  lemma {:induction false} ConcatAppend<T>(chunks: seq<seq<T>>, last: seq<T>)
    ensures Concat(chunks + [last]) == Concat(chunks) + last
  {
    if chunks == [] {
      assert chunks + [last] == [last];
    } else {
      assert (chunks + [last])[1..] == chunks[1..] + [last];
      ConcatAppend(chunks[1..], last);
    }
  }

  /** When every chunk has length `c`, the concatenation has `|chunks| * c` elements. */
  lemma {:induction false} ConcatLengthUniform<T>(chunks: seq<seq<T>>, c: nat)
    requires forall i :: 0 <= i < |chunks| ==> |chunks[i]| == c
    ensures |Concat(chunks)| == |chunks| * c
  {
    if chunks != [] {
      ConcatLengthUniform(chunks[1..], c);
    }
  }

  /**
   * `s` split into consecutive chunks of `c` elements; the last chunk holds the
   * remainder and is shorter when `c` does not divide `|s|`. No chunk is empty.
   */
  function Chunks<T>(s: seq<T>, c: nat): (r: seq<seq<T>>)
    requires c > 0
    decreases |s|
  {
    if |s| == 0 then []
    else if |s| <= c then [s]
    else [s[..c]] + Chunks(s[c..], c)
  }

  /**
   * Splitting into chunks loses nothing and reorders nothing, every chunk but the
   * last is full, no chunk is empty, and there are `ceil(|s| / c)` of them.
   */
  lemma ChunksSpec<T>(s: seq<T>, c: nat)
    requires c > 0
    ensures Concat(Chunks(s, c)) == s
    ensures |Chunks(s, c)| == (|s| + c - 1) / c
    ensures forall i :: 0 <= i < |Chunks(s, c)| ==> 0 < |Chunks(s, c)[i]| <= c
    ensures forall i :: 0 <= i < |Chunks(s, c)| - 1 ==> |Chunks(s, c)[i]| == c
  {
    ChunksConcat(s, c);
    ChunksCount(s, c);
    ChunksSizes(s, c);
  }

  lemma {:induction false} ChunksConcat<T>(s: seq<T>, c: nat)
    requires c > 0
    ensures Concat(Chunks(s, c)) == s
    decreases |s|
  {
    if |s| == 0 {
    } else if |s| <= c {
      assert Concat([s]) == s + Concat([]);
    } else {
      ChunksConcat(s[c..], c);
      var rest := Chunks(s[c..], c);
      assert ([s[..c]] + rest)[1..] == rest;
      assert s == s[..c] + s[c..];
    }
  }

  lemma {:induction false} ChunksCount<T>(s: seq<T>, c: nat)
    requires c > 0
    ensures |Chunks(s, c)| == (|s| + c - 1) / c
    decreases |s|
  {
    if |s| == 0 {
      DivUnique(c - 1, c, 0, c - 1);
    } else if |s| <= c {
      DivUnique(|s| + c - 1, c, 1, |s| - 1);
    } else {
      ChunksCount(s[c..], c);
      DivStep(|s| - c + c - 1, c);
    }
  }

  lemma {:induction false} ChunksSizes<T>(s: seq<T>, c: nat)
    requires c > 0
    ensures forall i :: 0 <= i < |Chunks(s, c)| ==> 0 < |Chunks(s, c)[i]| <= c
    ensures forall i :: 0 <= i < |Chunks(s, c)| - 1 ==> |Chunks(s, c)[i]| == c
    decreases |s|
  {
    if |s| > c {
      ChunksSizes(s[c..], c);
      var rest := Chunks(s[c..], c);
      assert Chunks(s, c) == [s[..c]] + rest;
      forall i | 1 <= i < |Chunks(s, c)|
        ensures Chunks(s, c)[i] == rest[i - 1]
      {
      }
    }
  }

  lemma DivStep(n: nat, c: nat)
    requires c > 0
    ensures (n + c) / c == 1 + n / c
  {
    var q, r := n / c, n % c;
    assert n == q * c + r;
    assert n + c == (q + 1) * c + r;
    DivUnique(n + c, c, q + 1, r);
  }

  /** Integer division is determined by quotient and remainder. */
  lemma DivUnique(a: int, c: int, q: int, r: int)
    requires c > 0 && 0 <= r < c && a == q * c + r
    ensures a / c == q
  {
    var q', r' := a / c, a % c;
    assert a == q' * c + r';
    MulSub(q', q, c);
    if q' > q {
      MulAtLeast(q' - q, c);
    } else if q' < q {
      MulSub(q, q', c);
      MulAtLeast(q - q', c);
    }
  }

  lemma MulSub(x: int, y: int, c: int)
    ensures (x - y) * c == x * c - y * c
  {
  }

  lemma {:induction false} MulAtLeast(k: int, c: int)
    requires k >= 1 && c > 0
    ensures k * c >= c
    decreases k
  {
    if k > 1 {
      MulAtLeast(k - 1, c);
      MulSub(k, 1, c);
    }
  }

  /**
   * Full chunks followed by a short tail are exactly the chunking of their
   * concatenation: the tail becomes the last chunk when it is not empty.
   */
  lemma {:induction false} ChunksOfFullBlocks<T>(blocks: seq<seq<T>>, tail: seq<T>, c: nat)
    requires c > 0
    requires forall i :: 0 <= i < |blocks| ==> |blocks[i]| == c
    requires |tail| < c
    ensures Chunks(Concat(blocks) + tail, c) == blocks + (if tail == [] then [] else [tail])
  {
    if blocks == [] {
      assert Concat(blocks) + tail == tail;
    } else {
      var s := Concat(blocks) + tail;
      var more := Concat(blocks[1..]) + tail;
      assert s == blocks[0] + more;
      ChunksOfFullBlocks(blocks[1..], tail, c);
      if more == [] {
        assert blocks[1..] == [];
        assert s == blocks[0];
      } else {
        assert s[..c] == blocks[0];
        assert s[c..] == more;
        assert blocks == [blocks[0]] + blocks[1..];
      }
    }
  }

  /** The elements of `s` that satisfy `p`, in their original order. */
  function Filter<T>(s: seq<T>, p: T -> bool): seq<T>
  {
    if s == [] then []
    else if p(s[0]) then [s[0]] + Filter(s[1..], p)
    else Filter(s[1..], p)
  }

  /** An element survives filtering exactly when it was there and satisfies the predicate. */
  lemma {:induction false} FilterMembership<T>(s: seq<T>, p: T -> bool, x: T)
    ensures x in Filter(s, p) <==> x in s && p(x)
  {
    if s != [] {
      FilterMembership(s[1..], p, x);
      assert s == [s[0]] + s[1..];
    }
  }

  /** Filtering commutes with concatenation, so relative order is kept. */
  lemma {:induction false} FilterConcat<T>(a: seq<T>, b: seq<T>, p: T -> bool)
    ensures Filter(a + b, p) == Filter(a, p) + Filter(b, p)
  {
    if a != [] {
      assert (a + b)[1..] == a[1..] + b;
      FilterConcat(a[1..], b, p);
    } else {
      assert a + b == b;
    }
  }

  /** Merging a map into itself changes nothing. */
  lemma MergeSelf<K, V>(m: map<K, V>)
    ensures m + m == m
  {
    assert (m + m).Keys == m.Keys;
  }

  predicate StartsWith(s: string, prefix: string)
  {
    prefix <= s
  }

  predicate EndsWith(s: string, suffix: string)
  {
    |suffix| <= |s| && s[|s| - |suffix|..] == suffix
  }

  /** Whether `part` occurs somewhere in `s`, as `String.contains`. */
  predicate Contains(s: string, part: string)
    decreases |s|
  {
    StartsWith(s, part) || (|s| > 0 && Contains(s[1..], part))
  }

  /** A part that starts at any position of `s` is contained in `s`. */
  lemma {:induction false} ContainsAt(s: string, i: nat, part: string)
    requires i <= |s| && StartsWith(s[i..], part)
    ensures Contains(s, part)
    decreases i
  {
    if i > 0 {
      assert s[1..][i - 1..] == s[i..];
      ContainsAt(s[1..], i - 1, part);
    }
  }

  /** All elements are pairwise distinct. */
  predicate Distinct<T(==)>(s: seq<T>)
  {
    forall i, j :: 0 <= i < j < |s| ==> s[i] != s[j]
  }

  /** A sequence stays duplicate-free under appending exactly when the new element is new. */
  lemma DistinctAppend<T>(s: seq<T>, x: T)
    ensures Distinct(s + [x]) <==> Distinct(s) && x !in s
  {
    var t := s + [x];
    assert forall i :: 0 <= i < |s| ==> t[i] == s[i];
    assert t[|s|] == x;
  }

  /** A slice is the slice up to a midpoint followed by the slice from it. */
  lemma SliceJoin<T>(s: seq<T>, i: nat, j: nat, k: nat)
    requires i <= j <= k <= |s|
    ensures s[i..k] == s[i..j] + s[j..k]
  {
  }

  /**
   * `Character.toUpperCase` on the characters whose case mapping can make a
   * character equal to a letter of `sync` or `true` in either case: the ASCII
   * letters, and the long s (U+017F), whose upper case is `S`.
   */
  function Upper(c: char): char
  {
    if 'a' <= c <= 'z' then (c as int - 32) as char
    else if c == 'ſ' then 'S'
    else c
  }

  /** `Character.toLowerCase` on the ASCII letters. */
  function Lower(c: char): char
  {
    if 'A' <= c <= 'Z' then (c as int + 32) as char else c
  }

  /** `String.equalsIgnoreCase`: the same length, and each pair of characters equal after case mapping. */
  predicate EqualsIgnoreCase(a: string, b: string)
  {
    |a| == |b| &&
    forall i :: 0 <= i < |a| ==> a[i] == b[i] || Upper(a[i]) == Upper(b[i]) || Lower(Upper(a[i])) == Lower(Upper(b[i]))
  }
}
