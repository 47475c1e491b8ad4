/**
  The vertical flip applied to every decoded image before it is uploaded as a
  texture: image rows come out of the loader top-down, OpenGL wants them
  bottom-up, so row `r` and row `height - 1 - r` trade places, byte for byte.
 */
module ImageFlip {

  /** One byte of pixel data (`unsigned char`). */
  newtype byte = x: int | 0 <= x < 256

  /** C's `height / 2` on an `int`: division truncating toward zero. */
  function HalfRows(height: int): (h: int)
    ensures height >= 0 ==> 0 <= h && 2 * h <= height <= 2 * h + 1
    ensures height < 0 ==> h <= 0
  {
    if height >= 0 then height / 2 else -((-height) / 2)
  }

  /**
    The buffer is long enough for the image: `height` rows of `rowLen` bytes
    each. When either dimension is not positive the routine touches nothing.
   */
  predicate Fits(length: int, height: int, rowLen: int) {
    rowLen <= 0 || height <= 0 || height * rowLen <= length
  }

  // ----- arithmetic on row-major indices -------------------------------------

  lemma MulMono(a: int, b: int, n: int)
    requires a <= b && 0 <= n
    ensures a * n <= b * n
  {
    assert b * n - a * n == (b - a) * n;
  }

  /** In a row-major layout, an earlier row comes entirely before a later one. */
  lemma RowBefore(r1: int, c1: int, r2: int, c2: int, n: int)
    requires r1 < r2 && 0 <= c1 < n && 0 <= c2
    ensures r1 * n + c1 < r2 * n + c2
  {
    MulMono(r1 + 1, r2, n);
    assert (r1 + 1) * n == r1 * n + n;
  }

  /** Row `r`, column `c` is recovered from the flat index by division. */
  lemma RowColDivMod(r: int, c: int, n: int)
    requires 0 <= c < n
    ensures (r * n + c) / n == r && (r * n + c) % n == c
  {
    var k := r * n + c;
    var q, m := k / n, k % n;
    assert k == q * n + m;
    if q < r {
      RowBefore(q, m, r, c, n);
    } else if r < q {
      RowBefore(r, c, q, m, n);
    }
  }

  /** A flat index inside the image lies in one of its rows. */
  lemma RowOf(k: int, height: int, n: int)
    requires n > 0 && 0 <= k < height * n
    ensures 0 <= k / n < height && 0 <= k % n < n
    ensures k == (k / n) * n + k % n
  {
    if k / n >= height {
      MulMono(height, k / n, n);
    }
  }

  // ----- the specification ---------------------------------------------------

  /** The index whose byte ends up at index `k` once the rows are mirrored. */
  function MirrorIndex(k: int, height: int, rowLen: int): (m: int)
    ensures rowLen > 0 && 0 <= k < height * rowLen ==> 0 <= m < height * rowLen
    ensures !(rowLen > 0 && 0 <= k < height * rowLen) ==> m == k
  {
    if rowLen > 0 && 0 <= k < height * rowLen then
      RowOf(k, height, rowLen);
      var r, c := k / rowLen, k % rowLen;
      MulMono(0, height - 1 - r, rowLen);
      RowBefore(height - 1 - r, c, height, 0, rowLen);
      (height - 1 - r) * rowLen + c
    else
      k
  }

  /**
    The buffer with its first `height` rows of `rowLen` bytes in reverse
    order; the bytes after the image are kept as they are.
   */
  function Flipped(s: seq<byte>, height: int, rowLen: int): (r: seq<byte>)
    requires Fits(|s|, height, rowLen)
    ensures |r| == |s|
  {
    seq(|s|, k requires 0 <= k < |s| => s[MirrorIndex(k, height, rowLen)])
  }

  /** Row `r` of the flipped image is row `height - 1 - r` of the original. */
  lemma FlippedRow(s: seq<byte>, height: int, rowLen: int, r: int, c: int)
    requires Fits(|s|, height, rowLen)
    requires 0 <= r < height && 0 <= c < rowLen
    ensures 0 <= r * rowLen + c < |s| && 0 <= (height - 1 - r) * rowLen + c < |s|
    ensures Flipped(s, height, rowLen)[r * rowLen + c] == s[(height - 1 - r) * rowLen + c]
  {
    RowColDivMod(r, c, rowLen);
    RowBefore(r, c, height, 0, rowLen);
    RowBefore(height - 1 - r, c, height, 0, rowLen);
    MulMono(0, r, rowLen);
    MulMono(0, height - 1 - r, rowLen);
  }

  /** Bytes past the end of the image are never moved. */
  lemma FlipKeepsTail(s: seq<byte>, height: int, rowLen: int, k: int)
    requires Fits(|s|, height, rowLen)
    requires 0 <= k < |s| && (rowLen <= 0 || height * rowLen <= k)
    ensures Flipped(s, height, rowLen)[k] == s[k]
  {
  }

  /** When the height is odd, the middle row stays where it is. */
  lemma FlipKeepsMiddleRow(s: seq<byte>, height: int, rowLen: int, c: int)
    requires Fits(|s|, height, rowLen)
    requires height > 0 && height % 2 == 1 && 0 <= c < rowLen
    ensures 0 <= (height / 2) * rowLen + c < |s|
    ensures Flipped(s, height, rowLen)[(height / 2) * rowLen + c] == s[(height / 2) * rowLen + c]
  {
    FlippedRow(s, height, rowLen, height / 2, c);
  }

  /** Flipping twice gives back the original buffer. */
  lemma FlipTwiceIsIdentity(s: seq<byte>, height: int, rowLen: int)
    requires Fits(|s|, height, rowLen)
    ensures Flipped(Flipped(s, height, rowLen), height, rowLen) == s
  {
    var f := Flipped(s, height, rowLen);
    forall k | 0 <= k < |s|
      ensures Flipped(f, height, rowLen)[k] == s[k]
    {
      if rowLen > 0 && k < height * rowLen {
        RowOf(k, height, rowLen);
        var r, c := k / rowLen, k % rowLen;
        FlippedRow(f, height, rowLen, r, c);
        FlippedRow(s, height, rowLen, height - 1 - r, c);
      }
    }
  }

  /** With no rows, or rows of no bytes, there is nothing to flip. */
  lemma FlipEmptyImage(s: seq<byte>, height: int, rowLen: int)
    requires rowLen <= 0 || height <= 0
    ensures Flipped(s, height, rowLen) == s
  {
    forall k | 0 <= k < |s|
      ensures Flipped(s, height, rowLen)[k] == s[k]
    {
      if rowLen > 0 {
        MulMono(height, 0, rowLen);
      }
    }
  }

  // ----- the loops' progress -------------------------------------------------

  /** Rows `j` and `height - 1 - j` are disjoint and lie inside the image, in that order. */
  lemma PairRows(height: int, rowLen: int, j: int)
    requires rowLen > 0 && 0 <= j < HalfRows(height)
    ensures 0 <= j * rowLen
    ensures j * rowLen + rowLen <= (height - 1 - j) * rowLen
    ensures (height - 1 - j) * rowLen + rowLen <= height * rowLen
  {
    MulMono(0, j, rowLen);
    MulMono(j + 1, height - 1 - j, rowLen);
    assert (j + 1) * rowLen == j * rowLen + rowLen;
    assert (height - 1 - j) * rowLen + rowLen == height * rowLen - j * rowLen;
    MulMono(0, j, rowLen);
  }

  /** A cell outside row `j` lies entirely before or entirely after that row. */
  lemma OutsideRow(r: int, c: int, j: int, rowLen: int)
    requires 0 <= c < rowLen && r != j
    ensures r * rowLen + c < j * rowLen || j * rowLen + rowLen <= r * rowLen + c
  {
    if r < j {
      RowBefore(r, c, j, 0, rowLen);
    } else {
      MulMono(j + 1, r, rowLen);
      assert (j + 1) * rowLen == j * rowLen + rowLen;
    }
  }

  /**
    The index whose original byte sits at `k` once the outer loop has
    exchanged its first `j` row pairs: rows below `j` and from `height - j`
    on are mirrored, the others are untouched.
   */
  function PairsSwappedIndex(k: int, height: int, rowLen: int, j: int): (m: int)
    ensures rowLen > 0 && 0 <= k < height * rowLen ==> 0 <= m < height * rowLen
    ensures !(rowLen > 0 && 0 <= k < height * rowLen) ==> m == k
  {
    if rowLen > 0 && 0 <= k < height * rowLen && (k / rowLen < j || height - j <= k / rowLen) then
      MirrorIndex(k, height, rowLen)
    else
      k
  }

  /** The buffer after `j` turns of the outer loop. */
  function PairsSwapped(s: seq<byte>, height: int, rowLen: int, j: int): (t: seq<byte>)
    requires Fits(|s|, height, rowLen)
    ensures |t| == |s|
  {
    seq(|s|, k requires 0 <= k < |s| => s[PairsSwappedIndex(k, height, rowLen, j)])
  }

  /** Before the outer loop has run, the buffer is untouched. */
  lemma PairsSwappedNone(s: seq<byte>, height: int, rowLen: int)
    requires Fits(|s|, height, rowLen)
    ensures PairsSwapped(s, height, rowLen, 0) == s
  {
    forall k | 0 <= k < |s|
      ensures PairsSwapped(s, height, rowLen, 0)[k] == s[k]
    {
      if rowLen > 0 && k < height * rowLen {
        RowOf(k, height, rowLen);
      }
    }
  }

  /** Once all `height / 2` row pairs are exchanged, the buffer is flipped. */
  lemma PairsSwappedAllIsFlipped(s: seq<byte>, height: int, rowLen: int)
    requires Fits(|s|, height, rowLen)
    ensures PairsSwapped(s, height, rowLen, HalfRows(height)) == Flipped(s, height, rowLen)
  {
    forall k | 0 <= k < |s|
      ensures PairsSwapped(s, height, rowLen, HalfRows(height))[k] == Flipped(s, height, rowLen)[k]
    {
      if rowLen > 0 && 0 <= k < height * rowLen {
        RowOf(k, height, rowLen);
      }
    }
  }

  /**
    `t` with the `n` bytes from `p` on exchanged with the `n` bytes from `q`
    on; nothing else moves.
   */
  function SwapRanges(t: seq<byte>, p: int, q: int, n: int): (u: seq<byte>)
    requires n > 0 ==> 0 <= p && p + n <= q && q + n <= |t|
    ensures |u| == |t|
  {
    seq(|t|, k requires 0 <= k < |t| =>
      if p <= k < p + n then t[k + (q - p)]
      else if q <= k < q + n then t[k - (q - p)]
      else t[k])
  }

  /** Exchanging empty ranges changes nothing. */
  lemma SwapRangesNone(t: seq<byte>, p: int, q: int)
    ensures SwapRanges(t, p, q, 0) == t
  {
  }

  /** `u` with the bytes at `i` and `j` exchanged: one turn of the inner loop. */
  function Swap(u: seq<byte>, i: int, j: int): (v: seq<byte>)
    requires 0 <= i < |u| && 0 <= j < |u|
    ensures |v| == |u|
  {
    u[i := u[j]][j := u[i]]
  }

  /** One turn of the inner loop extends the exchanged ranges by one byte each. */
  lemma SwapRangesStep(t: seq<byte>, p: int, q: int, n: nat, before: seq<byte>)
    requires 0 <= p && p + n < q && q + n < |t|
    requires before == SwapRanges(t, p, q, n)
    ensures Swap(before, p + n, q + n) == SwapRanges(t, p, q, n + 1)
  {
  }

  /** Row `j` after exchanging it with row `height - 1 - j`: it holds the mirror row's bytes. */
  lemma StepLowerRow(s: seq<byte>, height: int, rowLen: int, j: int, c: int)
    requires Fits(|s|, height, rowLen) && rowLen > 0 && 0 <= j < HalfRows(height) && 0 <= c < rowLen
    ensures 0 <= j * rowLen && j * rowLen + rowLen <= (height - 1 - j) * rowLen
    ensures (height - 1 - j) * rowLen + rowLen <= |s|
    ensures SwapRanges(PairsSwapped(s, height, rowLen, j), j * rowLen, (height - 1 - j) * rowLen, rowLen)[j * rowLen + c]
            == PairsSwapped(s, height, rowLen, j + 1)[j * rowLen + c]
  {
    PairRows(height, rowLen, j);
    RowColDivMod(j, c, rowLen);
    RowColDivMod(height - 1 - j, c, rowLen);
    var q := (height - 1 - j) * rowLen;
    assert PairsSwapped(s, height, rowLen, j)[q + c] == s[q + c];
  }

  /** Row `height - 1 - j` after exchanging it with row `j`: it holds row `j`'s bytes. */
  lemma StepUpperRow(s: seq<byte>, height: int, rowLen: int, j: int, c: int)
    requires Fits(|s|, height, rowLen) && rowLen > 0 && 0 <= j < HalfRows(height) && 0 <= c < rowLen
    ensures 0 <= j * rowLen && j * rowLen + rowLen <= (height - 1 - j) * rowLen
    ensures (height - 1 - j) * rowLen + rowLen <= |s|
    ensures SwapRanges(PairsSwapped(s, height, rowLen, j), j * rowLen, (height - 1 - j) * rowLen, rowLen)[(height - 1 - j) * rowLen + c]
            == PairsSwapped(s, height, rowLen, j + 1)[(height - 1 - j) * rowLen + c]
  {
    PairRows(height, rowLen, j);
    RowColDivMod(j, c, rowLen);
    RowColDivMod(height - 1 - j, c, rowLen);
    var p := j * rowLen;
    assert PairsSwapped(s, height, rowLen, j)[p + c] == s[p + c];
  }

  /** Every other row is left as the earlier turns left it. */
  lemma StepOtherRow(s: seq<byte>, height: int, rowLen: int, j: int, r: int, c: int)
    requires Fits(|s|, height, rowLen) && rowLen > 0 && 0 <= j < HalfRows(height)
    requires 0 <= r < height && r != j && r != height - 1 - j && 0 <= c < rowLen
    ensures 0 <= j * rowLen && j * rowLen + rowLen <= (height - 1 - j) * rowLen
    ensures (height - 1 - j) * rowLen + rowLen <= |s|
    ensures 0 <= r * rowLen + c < |s|
    ensures SwapRanges(PairsSwapped(s, height, rowLen, j), j * rowLen, (height - 1 - j) * rowLen, rowLen)[r * rowLen + c]
            == PairsSwapped(s, height, rowLen, j + 1)[r * rowLen + c]
  {
    PairRows(height, rowLen, j);
    MulMono(0, r, rowLen);
    RowBefore(r, c, height, 0, rowLen);
    RowColDivMod(r, c, rowLen);
    OutsideRow(r, c, j, rowLen);
    OutsideRow(r, c, height - 1 - j, rowLen);
  }

  /** Exchanging row `j` with row `height - 1 - j` is one more turn of the outer loop. */
  lemma PairsSwappedStep(s: seq<byte>, height: int, rowLen: int, j: int)
    requires Fits(|s|, height, rowLen) && 0 <= j < HalfRows(height)
    ensures rowLen > 0 ==> 0 <= j * rowLen && j * rowLen + rowLen <= (height - 1 - j) * rowLen
    ensures rowLen > 0 ==> (height - 1 - j) * rowLen + rowLen <= |s|
    ensures SwapRanges(PairsSwapped(s, height, rowLen, j), j * rowLen, (height - 1 - j) * rowLen, rowLen)
            == PairsSwapped(s, height, rowLen, j + 1)
  {
    var before := PairsSwapped(s, height, rowLen, j);
    var after := PairsSwapped(s, height, rowLen, j + 1);
    if rowLen > 0 {
      PairRows(height, rowLen, j);
      var swapped := SwapRanges(before, j * rowLen, (height - 1 - j) * rowLen, rowLen);
      forall k | 0 <= k < |s|
        ensures swapped[k] == after[k]
      {
        if k < height * rowLen {
          RowOf(k, height, rowLen);
          var r, c := k / rowLen, k % rowLen;
          if r == j {
            StepLowerRow(s, height, rowLen, j, c);
          } else if r == height - 1 - j {
            StepUpperRow(s, height, rowLen, j, c);
          } else {
            StepOtherRow(s, height, rowLen, j, r, c);
          }
        }
      }
    } else {
      assert SwapRanges(before, j * rowLen, (height - 1 - j) * rowLen, rowLen) == before;
    }
  }

  // ----- the routine ---------------------------------------------------------

  /** `j * width * channels`, the start of row `j`, as the routine computes it. */
  lemma RowIndex(j: int, width: int, channels: int, rowLen: int)
    requires rowLen == width * channels
    ensures j * width * channels == j * rowLen
  {
    assert j * width * channels == j * (width * channels);
  }

  /**
    The inner loop of `flipImageVertically`: `i` counts the `count` bytes
    down while `index1` and `index2` walk forward together, each step
    swapping the two bytes through a temporary.
   */
  method SwapRowBytes(image: array<byte>, start1: int, start2: int, count: int)
    requires count > 0 ==> 0 <= start1 && start1 + count <= start2 && start2 + count <= image.Length
    modifies image
    ensures image[..] == SwapRanges(old(image[..]), start1, start2, count)
    ensures multiset(image[..]) == multiset(old(image[..]))
  {
    ghost var start := image[..];
    SwapRangesNone(start, start1, start2);
    var index1, index2 := start1, start2;
    var i := count;
    ghost var done: nat := 0;
    while i > 0
      invariant done == count - i && (count > 0 ==> 0 <= i <= count) && (count <= 0 ==> i == count)
      invariant index1 == start1 + done && index2 == start2 + done
      invariant image[..] == SwapRanges(start, start1, start2, done)
      invariant multiset(image[..]) == multiset(start)
    {
      ghost var current := image[..];
      SwapRangesStep(start, start1, start2, done, current);
      var tmp := image[index1];
      image[index1] := image[index2];
      image[index2] := tmp;
      assert image[..] == Swap(current, index1, index2);
      index1 := index1 + 1;
      index2 := index2 + 1;
      i := i - 1;
      done := done + 1;
    }
  }

  /**
    `flipImageVertically`: for each of the first `height / 2` rows, swap it
    byte by byte with its mirror row.
   */
  method FlipImageVertically(image: array<byte>, width: int, height: int, channels: int)
    requires Fits(image.Length, height, width * channels)
    modifies image
    ensures image[..] == Flipped(old(image[..]), height, width * channels)
    ensures multiset(image[..]) == multiset(old(image[..]))
  {
    ghost var original := image[..];
    ghost var rowLen := width * channels;
    PairsSwappedNone(original, height, rowLen);
    var j := 0;
    while j < HalfRows(height)
      invariant 0 <= j && (j == 0 || j <= HalfRows(height))
      invariant image[..] == PairsSwapped(original, height, rowLen, j)
      invariant multiset(image[..]) == multiset(original)
    {
      var index1 := j * width * channels;
      var index2 := (height - 1 - j) * width * channels;
      RowIndex(j, width, channels, rowLen);
      RowIndex(height - 1 - j, width, channels, rowLen);
      PairsSwappedStep(original, height, rowLen, j);
      assert index1 == j * rowLen;
      assert index2 == (height - 1 - j) * rowLen;
      assert |original| == image.Length;
      assert rowLen > 0 ==> 0 <= index1;
      assert rowLen > 0 ==> index1 + rowLen <= index2;
      assert rowLen > 0 ==> index2 + rowLen <= image.Length;
      SwapRowBytes(image, index1, index2, width * channels);
      j := j + 1;
    }
    PairsSwappedAllIsFlipped(original, height, rowLen);
  }
}
