/** What all three kernels share: the selection `values[row_ids[i]]`, its
    unbounded sum, and the split of the row ids into full chunks of four
    followed by a remainder of at most three. */
module Selection {
  import opened Words
  import opened Avx2

  /** Lane count of a 256-bit register of 64-bit values. */
  const LANES: nat := 4

  /** Every row id indexes the value column. */
  predicate InRange(values: seq<u64>, ids: seq<u32>) {
    forall i :: 0 <= i < |ids| ==> ids[i] < |values|
  }

  /** The first `n` row ids index the value column: what the vector kernels
      need of the row ids they gather. */
  predicate PrefixInRange(values: seq<u64>, ids: seq<u32>, n: nat) {
    n <= |ids| && forall i :: 0 <= i < n ==> ids[i] < |values|
  }

  /** The row ids are in range exactly when both parts of a split are. */
  lemma InRangeSplit(values: seq<u64>, ids: seq<u32>, n: nat)
    requires n <= |ids|
    ensures PrefixInRange(values, ids, n) <==> InRange(values, ids[..n])
    ensures InRange(values, ids) <==> InRange(values, ids[..n]) && InRange(values, ids[n..])
  {
    if InRange(values, ids[..n]) && InRange(values, ids[n..]) {
      forall i | 0 <= i < |ids|
        ensures ids[i] < |values|
      {
        if i >= n {
          assert ids[i] == ids[n..][i - n];
        } else {
          assert ids[i] == ids[..n][i];
        }
      }
    }
    if PrefixInRange(values, ids, n) {
      forall i | 0 <= i < n
        ensures ids[..n][i] < |values|
      {
        assert ids[..n][i] == ids[i];
      }
    }
  }

  /** The reference selection: the value of each row id, in row-id order. */
  function Selected(values: seq<u64>, ids: seq<u32>): (s: seq<u64>)
    requires InRange(values, ids)
    ensures |s| == |ids|
    ensures forall i :: 0 <= i < |ids| ==> s[i] == values[ids[i]]
  {
    seq(|ids|, i requires 0 <= i < |ids| => values[ids[i]])
  }

  /** Selecting a slice of the row ids is slicing the selection. */
  lemma SelectedSlice(values: seq<u64>, ids: seq<u32>, a: nat, b: nat)
    requires InRange(values, ids) && a <= b <= |ids|
    ensures InRange(values, ids[a..b])
    ensures Selected(values, ids[a..b]) == Selected(values, ids)[a..b]
  {
  }

  /** The mathematical (unbounded) sum of a sequence of values. */
  function Total(xs: seq<u64>): nat {
    if |xs| == 0 then 0 else Total(xs[..|xs| - 1]) + xs[|xs| - 1]
  }

  lemma {:induction false} TotalAppend(a: seq<u64>, b: seq<u64>)
    ensures Total(a + b) == Total(a) + Total(b)
    decreases |b|
  {
    if |b| == 0 {
      assert a + b == a;
    } else {
      var b' := b[..|b| - 1];
      assert (a + b)[..|a + b| - 1] == a + b';
      TotalAppend(a, b');
    }
  }

  lemma TotalOfFour(g: seq<u64>)
    requires |g| == 4
    ensures Total(g) == g[0] as int + g[1] + g[2] + g[3]
  {
    assert g[..3][..2] == g[..2];
    assert g[..2][..1] == g[..1];
    assert g[..1][..0] == [];
    assert Total(g[..1]) == g[0];
    assert Total(g[..2]) == g[0] as int + g[1];
    assert Total(g[..3]) == g[0] as int + g[1] + g[2];
  }

  /** Number of full chunks `chunks_exact(4)` yields for `m` row ids. */
  function ChunkCount(m: nat): nat {
    m / LANES
  }

  /** Where the remainder starts, `m - m % 4`: a multiple of four covering
      every full chunk and leaving at most three row ids behind it. */
  function RemStart(m: nat): (rem: nat)
    ensures rem == LANES * ChunkCount(m)
    ensures rem <= m < rem + LANES
    ensures rem == m <==> m % LANES == 0
  {
    m - m % LANES
  }

  /** Lane `j` of the first `k` chunks: the values a single register lane sees,
      `values[row_ids[4c + j]]` for `c < k`. */
  function LaneColumn(values: seq<u64>, ids: seq<u32>, k: nat, j: nat): (col: seq<u64>)
    requires PrefixInRange(values, ids, LANES * k) && j < LANES
    ensures |col| == k
    ensures forall c :: 0 <= c < k ==> col[c] == values[ids[LANES * c + j]]
  {
    seq(k, c requires 0 <= c < k => values[ids[LANES * c + j]])
  }

  /** The gather of chunk `c`, `row_ids[4c..4c + 4]`: lane `j` reads the row
      of `row_ids[4c + j]`. */
  function GatherChunk(values: seq<u64>, ids: seq<u32>, c: nat): (r: U64x4)
    requires PrefixInRange(values, ids, LANES * c + LANES)
    ensures forall j :: 0 <= j < LANES ==> r[j] == values[ids[LANES * c + j]]
  {
    Gather(values, ids[LANES * c..LANES * c + LANES])
  }

  /** One more chunk appends one element to every lane column. */
  lemma LaneColumnStep(values: seq<u64>, ids: seq<u32>, k: nat, j: nat)
    requires PrefixInRange(values, ids, LANES * k) && j < LANES && k > 0
    ensures LaneColumn(values, ids, k, j)
         == LaneColumn(values, ids, k - 1, j) + [values[ids[LANES * (k - 1) + j]]]
  {
  }

  /** Every lane value is a selected value. */
  lemma LaneColumnSelected(values: seq<u64>, ids: seq<u32>, k: nat, j: nat, x: u64)
    requires InRange(values, ids) && LANES * k <= |ids| && j < LANES
    requires x in LaneColumn(values, ids, k, j)
    ensures x in Selected(values, ids)
  {
    var col := LaneColumn(values, ids, k, j);
    var c :| 0 <= c < k && col[c] == x;
    assert Selected(values, ids)[LANES * c + j] == x;
  }

  /** Element `i` of the chunked part of the selection sits in lane `i % 4`,
      chunk `i / 4`. */
  lemma ChunkedPosition(values: seq<u64>, ids: seq<u32>, k: nat, i: nat)
    requires InRange(values, ids) && LANES * k <= |ids| && i < LANES * k
    ensures i / LANES < k
    ensures Selected(values, ids)[i] == LaneColumn(values, ids, k, i % LANES)[i / LANES]
  {
  }

  /** One chunk more adds its element to each lane column's sum. */
  lemma LaneTotalsStep(values: seq<u64>, ids: seq<u32>, k: nat)
    requires PrefixInRange(values, ids, LANES * k) && k > 0
    ensures forall j :: 0 <= j < LANES ==>
      Total(LaneColumn(values, ids, k, j))
      == Total(LaneColumn(values, ids, k - 1, j)) + values[ids[LANES * (k - 1) + j]]
  {
    forall j | 0 <= j < LANES
      ensures Total(LaneColumn(values, ids, k, j))
           == Total(LaneColumn(values, ids, k - 1, j)) + values[ids[LANES * (k - 1) + j]]
    {
      LaneColumnStep(values, ids, k, j);
      assert LaneColumn(values, ids, k, j)[..k - 1] == LaneColumn(values, ids, k - 1, j);
    }
  }

  /** One chunk more appends its gathered register to the selection of the
      chunked part. */
  lemma ChunkSelectionStep(values: seq<u64>, ids: seq<u32>, k: nat)
    requires PrefixInRange(values, ids, LANES * k) && k > 0
    ensures InRange(values, ids[..LANES * k]) && InRange(values, ids[..LANES * (k - 1)])
    ensures Selected(values, ids[..LANES * k])
         == Selected(values, ids[..LANES * (k - 1)]) + GatherChunk(values, ids, k - 1)
  {
    var base := LANES * (k - 1);
    InRangeSplit(values, ids, LANES * k);
    InRangeSplit(values, ids, base);
    var whole := Selected(values, ids[..LANES * k]);
    var joined := Selected(values, ids[..base]) + GatherChunk(values, ids, k - 1);
    forall i | 0 <= i < LANES * k
      ensures whole[i] == joined[i]
    {
      if i >= base {
        assert joined[i] == GatherChunk(values, ids, k - 1)[i - base];
      }
    }
  }

  /** One chunk more adds its four values to the sum of the chunked part. */
  lemma ChunkTotalStep(values: seq<u64>, ids: seq<u32>, k: nat)
    requires PrefixInRange(values, ids, LANES * k) && k > 0
    ensures InRange(values, ids[..LANES * k]) && InRange(values, ids[..LANES * (k - 1)])
    ensures var base := LANES * (k - 1);
      Total(Selected(values, ids[..LANES * k]))
      == Total(Selected(values, ids[..base])) + values[ids[base]] + values[ids[base + 1]]
       + values[ids[base + 2]] + values[ids[base + 3]]
  {
    var base := LANES * (k - 1);
    InRangeSplit(values, ids, LANES * k);
    var prefix := ids[..LANES * k];
    assert prefix[..base] == ids[..base] && prefix[base..] == ids[base..base + LANES];
    SelectedSplit(values, prefix, base);
    var q := Selected(values, ids[..base]);
    var g := Selected(values, ids[base..base + LANES]);
    TotalOfFour(g);
    assert g[0] == values[ids[base]] && g[1] == values[ids[base + 1]];
    assert g[2] == values[ids[base + 2]] && g[3] == values[ids[base + 3]];
  }

  /** The sum of the first `k` chunks is the sum of the four lane columns. */
  lemma {:induction false} ChunkedTotal(values: seq<u64>, ids: seq<u32>, k: nat)
    requires PrefixInRange(values, ids, LANES * k)
    ensures InRange(values, ids[..LANES * k])
    ensures Total(Selected(values, ids[..LANES * k]))
         == Total(LaneColumn(values, ids, k, 0)) + Total(LaneColumn(values, ids, k, 1))
          + Total(LaneColumn(values, ids, k, 2)) + Total(LaneColumn(values, ids, k, 3))
    decreases k
  {
    if k > 0 {
      var prev := k - 1;
      ChunkedTotal(values, ids, prev);
      ChunkTotalStep(values, ids, k);
      LaneTotalsStep(values, ids, k);
    }
  }

  /** The selection is its chunked part followed by its remainder. */
  lemma SelectedSplit(values: seq<u64>, ids: seq<u32>, rem: nat)
    requires InRange(values, ids) && rem <= |ids|
    ensures InRange(values, ids[..rem]) && InRange(values, ids[rem..])
    ensures Selected(values, ids) == Selected(values, ids[..rem]) + Selected(values, ids[rem..])
    ensures Total(Selected(values, ids))
         == Total(Selected(values, ids[..rem])) + Total(Selected(values, ids[rem..]))
  {
    assert Selected(values, ids) == Selected(values, ids[..rem]) + Selected(values, ids[rem..]);
    TotalAppend(Selected(values, ids[..rem]), Selected(values, ids[rem..]));
  }

  /** Selecting one more row id appends its value; the extended ids are in
      range exactly when the shorter ones are and the new id is. */
  lemma SelectedSnoc(values: seq<u64>, ids: seq<u32>)
    requires |ids| > 0
    ensures InRange(values, ids)
        <==> InRange(values, ids[..|ids| - 1]) && ids[|ids| - 1] < |values|
    ensures InRange(values, ids) ==>
      Selected(values, ids) == Selected(values, ids[..|ids| - 1]) + [values[ids[|ids| - 1]]]
    ensures InRange(values, ids) ==>
      Total(Selected(values, ids)) == Total(Selected(values, ids[..|ids| - 1])) + values[ids[|ids| - 1]]
  {
    if InRange(values, ids) {
      assert Selected(values, ids)
          == Selected(values, ids[..|ids| - 1]) + [values[ids[|ids| - 1]]];
      assert Selected(values, ids)[..|ids| - 1] == Selected(values, ids[..|ids| - 1]);
    }
  }

  /** One more row id on a prefix of the row ids appends its value. */
  lemma SelectedPrefixSnoc(values: seq<u64>, ids: seq<u32>, i: nat)
    requires i < |ids| && InRange(values, ids[..i]) && ids[i] < |values|
    ensures InRange(values, ids[..i + 1])
    ensures Selected(values, ids[..i + 1]) == Selected(values, ids[..i]) + [values[ids[i]]]
  {
    assert ids[0..i] == ids[..i] && ids[0..i + 1] == ids[..i + 1];
    SelectedSliceSnoc(values, ids, 0, i);
  }

  /** Selecting the row ids `a..i + 1` appends the value of row id `i` to
      the selection of `a..i`, and to its sum. */
  lemma SelectedSliceSnoc(values: seq<u64>, ids: seq<u32>, a: nat, i: nat)
    requires a <= i < |ids| && InRange(values, ids[a..i]) && ids[i] < |values|
    ensures InRange(values, ids[a..i + 1])
    ensures Selected(values, ids[a..i + 1]) == Selected(values, ids[a..i]) + [values[ids[i]]]
    ensures Total(Selected(values, ids[a..i + 1])) == Total(Selected(values, ids[a..i])) + values[ids[i]]
  {
    assert ids[a..i + 1][..i - a] == ids[a..i];
    SelectedSnoc(values, ids[a..i + 1]);
  }

  /** `(lo..hi).collect::<Vec<u64>>()`. */
  function Range(lo: nat, hi: nat): (s: seq<u64>)
    requires lo <= hi <= TWO_64
    ensures |s| == hi - lo
    ensures forall i :: 0 <= i < |s| ==> s[i] == lo + i
  {
    seq(hi - lo, i requires 0 <= i < hi - lo => lo + i)
  }

  /** Twice the sum of `lo..hi` is its length times `lo + hi - 1`. */
  lemma {:induction false} TotalOfRange(lo: nat, hi: nat)
    requires lo <= hi <= TWO_64
    ensures 2 * Total(Range(lo, hi)) == (hi - lo) * (lo + hi - 1)
    decreases hi - lo
  {
    if hi > lo {
      var n := hi - lo;
      assert Range(lo, hi)[..n - 1] == Range(lo, hi - 1);
      TotalOfRange(lo, hi - 1);
      assert Total(Range(lo, hi)) == Total(Range(lo, hi - 1)) + (hi - 1);
      assert (n - 1) * (lo + hi - 2) + 2 * (hi - 1) == n * (lo + hi - 1);
    }
  }

  lemma TotalOfTwo(g: seq<u64>)
    requires |g| == 2
    ensures Total(g) == g[0] as int + g[1]
  {
    assert g[..1][..0] == [];
    assert Total(g[..1]) == g[0];
  }
}
