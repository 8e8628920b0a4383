/** `weighted_boxes_fusion` of final/training/convert_annotations.py: the boxes of several
    annotators are flattened (dropping those scored at or below a threshold), grouped by
    label in ascending label order, and within each label clustered greedily: every box not
    yet used seeds a cluster and takes in every later unused box whose IoU with the seed is
    above `iou_thr`. Each cluster becomes one box, the score-weighted average of its boxes,
    carrying the mean score. */
module Fusion {
  import opened Boxes
  import opened SeqUtil

  /** One box with its score and label: a row of the parallel arrays of the source. */
  datatype Entry = Entry(box: Box, score: real, cls: int)

  function BoxesOf(es: seq<Entry>): (r: seq<Box>)
    ensures |r| == |es| && forall k :: 0 <= k < |es| ==> r[k] == es[k].box
  {
    seq(|es|, k requires 0 <= k < |es| => es[k].box)
  }

  function ScoresOf(es: seq<Entry>): (r: seq<real>)
    ensures |r| == |es| && forall k :: 0 <= k < |es| ==> r[k] == es[k].score
  {
    seq(|es|, k requires 0 <= k < |es| => es[k].score)
  }

  function LabelsOf(es: seq<Entry>): (r: seq<int>)
    ensures |r| == |es| && forall k :: 0 <= k < |es| ==> r[k] == es[k].cls
  {
    seq(|es|, k requires 0 <= k < |es| => es[k].cls)
  }

  predicate AllPositive(xs: seq<real>)
  {
    forall k :: 0 <= k < |xs| ==> xs[k] > 0.0
  }

  predicate PositiveScores(es: seq<Entry>)
  {
    forall k :: 0 <= k < |es| ==> es[k].score > 0.0
  }

  // ---------------------------------------------------------------------------
  // Flattening: the two nested `zip` loops (zip stops at the shortest argument)
  // ---------------------------------------------------------------------------

  function Min3(a: nat, b: nat, c: nat): (r: nat)
    ensures r <= a && r <= b && r <= c
    ensures r == a || r == b || r == c
  {
    if a <= b && a <= c then a else if b <= c then b else c
  }

  /** The entries among the first `n` rows of one annotator's arrays scored above `skipThr`. */
  function Kept(boxes: seq<Box>, scores: seq<real>, labels: seq<int>, skipThr: real, n: nat): (r: seq<Entry>)
    requires n <= |boxes| && n <= |scores| && n <= |labels|
    ensures forall k :: 0 <= k < |r| ==> r[k].score > skipThr
  {
    if n == 0 then []
    else Kept(boxes, scores, labels, skipThr, n - 1)
         + (if scores[n - 1] > skipThr then [Entry(boxes[n - 1], scores[n - 1], labels[n - 1])] else [])
  }

  /** Number of rows `zip(boxes, scores, labels)` yields for annotator `p`. */
  function RowCount(bl: seq<seq<Box>>, sl: seq<seq<real>>, ll: seq<seq<int>>, p: nat): nat
    requires p < Min3(|bl|, |sl|, |ll|)
  {
    Min3(|bl[p]|, |sl[p]|, |ll[p]|)
  }

  /** The flattened surviving entries of the first `n` annotators. */
  function Survivors(bl: seq<seq<Box>>, sl: seq<seq<real>>, ll: seq<seq<int>>, skipThr: real, n: nat): (r: seq<Entry>)
    requires n <= Min3(|bl|, |sl|, |ll|)
    ensures forall k :: 0 <= k < |r| ==> r[k].score > skipThr
  {
    if n == 0 then []
    else Survivors(bl, sl, ll, skipThr, n - 1)
         + Kept(bl[n - 1], sl[n - 1], ll[n - 1], skipThr, RowCount(bl, sl, ll, n - 1))
  }

  function AllSurvivors(bl: seq<seq<Box>>, sl: seq<seq<real>>, ll: seq<seq<int>>, skipThr: real): seq<Entry>
  {
    Survivors(bl, sl, ll, skipThr, Min3(|bl|, |sl|, |ll|))
  }

  /** Some row of some annotator scores above the threshold. */
  predicate AnyAbove(bl: seq<seq<Box>>, sl: seq<seq<real>>, ll: seq<seq<int>>, skipThr: real)
  {
    exists p, q :: 0 <= p < Min3(|bl|, |sl|, |ll|) && 0 <= q < RowCount(bl, sl, ll, p) && sl[p][q] > skipThr
  }

  lemma {:induction false} KeptEmpty(boxes: seq<Box>, scores: seq<real>, labels: seq<int>, skipThr: real, n: nat)
    requires n <= |boxes| && n <= |scores| && n <= |labels|
    ensures Kept(boxes, scores, labels, skipThr, n) == [] <==> forall q :: 0 <= q < n ==> scores[q] <= skipThr
  {
    if n > 0 {
      KeptEmpty(boxes, scores, labels, skipThr, n - 1);
    }
  }

  lemma {:induction false} SurvivorsEmpty(bl: seq<seq<Box>>, sl: seq<seq<real>>, ll: seq<seq<int>>, skipThr: real, n: nat)
    requires n <= Min3(|bl|, |sl|, |ll|)
    ensures Survivors(bl, sl, ll, skipThr, n) == []
        <==> forall p, q :: 0 <= p < n && 0 <= q < RowCount(bl, sl, ll, p) ==> sl[p][q] <= skipThr
  {
    if n > 0 {
      SurvivorsEmpty(bl, sl, ll, skipThr, n - 1);
      KeptEmpty(bl[n - 1], sl[n - 1], ll[n - 1], skipThr, RowCount(bl, sl, ll, n - 1));
    }
  }

  /** Nothing survives the flattening exactly when no row scores above the threshold. */
  lemma AllSurvivorsEmpty(bl: seq<seq<Box>>, sl: seq<seq<real>>, ll: seq<seq<int>>, skipThr: real)
    ensures AllSurvivors(bl, sl, ll, skipThr) == [] <==> !AnyAbove(bl, sl, ll, skipThr)
  {
    SurvivorsEmpty(bl, sl, ll, skipThr, Min3(|bl|, |sl|, |ll|));
  }

  // ---------------------------------------------------------------------------
  // np.unique and the label mask
  // ---------------------------------------------------------------------------

  predicate Increasing(s: seq<int>)
  {
    forall i, j :: 0 <= i < j < |s| ==> s[i] < s[j]
  }

  function InsertUnique(x: int, s: seq<int>): (r: seq<int>)
    requires Increasing(s)
    ensures Increasing(r)
    ensures forall e :: e in r <==> e in s || e == x
  {
    if s == [] then [x]
    else if x < s[0] then [x] + s
    else if x == s[0] then s
    else
      var rest := InsertUnique(x, s[1..]);
      assert forall k :: 0 <= k < |rest| ==> s[0] < rest[k] by {
        forall k | 0 <= k < |rest| ensures s[0] < rest[k] {
          assert rest[k] in rest;
          if rest[k] != x {
            var j :| 0 <= j < |s[1..]| && s[1..][j] == rest[k];
            assert s[j + 1] == rest[k];
          }
        }
      }
      [s[0]] + rest
  }

  /** `np.unique(labels)`: the distinct labels, in ascending order. */
  function Unique(ls: seq<int>): (r: seq<int>)
    ensures Increasing(r)
    ensures forall e :: e in r <==> e in ls
  {
    if ls == [] then []
    else
      assert ls == ls[..|ls| - 1] + [ls[|ls| - 1]];
      InsertUnique(ls[|ls| - 1], Unique(ls[..|ls| - 1]))
  }

  /** `all[all_labels == label]`: the entries carrying `l`, in their original order. */
  function WithLabel(es: seq<Entry>, l: int): (r: seq<Entry>)
    ensures |r| <= |es|
    ensures forall k :: 0 <= k < |r| ==> r[k].cls == l && r[k] in es
    ensures (exists k :: 0 <= k < |es| && es[k].cls == l) ==> |r| > 0
    ensures forall k :: 0 <= k < |es| && es[k].cls == l ==> es[k] in r
  {
    if es == [] then []
    else
      var init := es[..|es| - 1];
      var rest := WithLabel(init, l);
      assert forall k :: 0 <= k < |rest| ==> rest[k] in es by {
        forall k | 0 <= k < |rest| ensures rest[k] in es {
          var j :| 0 <= j < |init| && init[j] == rest[k];
          assert es[j] == rest[k];
        }
      }
      assert forall k :: 0 <= k < |init| ==> init[k] == es[k];
      rest + (if es[|es| - 1].cls == l then [es[|es| - 1]] else [])
  }

  lemma WithLabelPositive(es: seq<Entry>, l: int)
    requires PositiveScores(es)
    ensures PositiveScores(WithLabel(es, l))
  {
    var r := WithLabel(es, l);
    forall k | 0 <= k < |r| ensures r[k].score > 0.0 {
      var j :| 0 <= j < |es| && es[j] == r[k];
    }
  }

  // ---------------------------------------------------------------------------
  // Greedy clustering of the boxes of one label
  // ---------------------------------------------------------------------------

  function AllUnused(n: nat): (r: seq<bool>)
    ensures |r| == n && forall k :: 0 <= k < n ==> !r[k]
  {
    seq(n, _ => false)
  }

  /** The inner loop over `j`: the unused boxes from `j` on whose IoU with the seed is above
      `thr` join the seed's cluster, in index order, and are marked as used. */
  function Joiners(bs: seq<Box>, thr: real, seed: nat, used: seq<bool>, j: nat): (r: (seq<nat>, seq<bool>))
    requires seed < |bs| && |used| == |bs| && j <= |bs|
    ensures |r.1| == |used|
    decreases |bs| - j
  {
    if j == |bs| then ([], used)
    else if used[j] then Joiners(bs, thr, seed, used, j + 1)
    else if Iou(bs[seed], bs[j]) > thr then
      var rest := Joiners(bs, thr, seed, used[j := true], j + 1);
      ([j] + rest.0, rest.1)
    else Joiners(bs, thr, seed, used, j + 1)
  }

  /** The outer loop from `i` on: each unused box seeds a cluster made of itself and its joiners. */
  function ClustersFrom(bs: seq<Box>, thr: real, used: seq<bool>, i: nat): seq<seq<nat>>
    requires |used| == |bs| && i <= |bs|
    decreases |bs| - i
  {
    if i == |bs| then []
    else if used[i] then ClustersFrom(bs, thr, used, i + 1)
    else
      var grabbed := Joiners(bs, thr, i, used[i := true], i + 1);
      [[i] + grabbed.0] + ClustersFrom(bs, thr, grabbed.1, i + 1)
  }

  /** The clusters (as lists of box indices) formed for one label. */
  function Clusters(bs: seq<Box>, thr: real): seq<seq<nat>>
  {
    ClustersFrom(bs, thr, AllUnused(|bs|), 0)
  }

  /** All indices of all clusters, cluster after cluster. */
  function Flat(cs: seq<seq<nat>>): seq<nat>
  {
    if cs == [] then [] else cs[0] + Flat(cs[1..])
  }

  /** Every cluster is non-empty and indexes boxes that exist. */
  predicate ValidClusters(cs: seq<seq<nat>>, n: nat)
  {
    forall c :: 0 <= c < |cs| ==> |cs[c]| > 0 && forall p :: 0 <= p < |cs[c]| ==> cs[c][p] < n
  }

  /** Inside every cluster the indices increase, and every member after the first (the seed)
      has IoU with the seed above `thr`. */
  predicate Seeded(bs: seq<Box>, thr: real, cs: seq<seq<nat>>)
    requires ValidClusters(cs, |bs|)
  {
    forall c :: 0 <= c < |cs| ==>
      Increasing(cs[c]) && forall p :: 0 < p < |cs[c]| ==> Iou(bs[cs[c][0]], bs[cs[c][p]]) > thr
  }

  lemma IncreasingNoDup(s: seq<int>)
    requires Increasing(s)
    ensures NoDup(s)
  {
  }

  lemma {:induction false} JoinersSpec(bs: seq<Box>, thr: real, seed: nat, used: seq<bool>, j: nat)
    requires seed < |bs| && |used| == |bs| && j <= |bs|
    ensures var r := Joiners(bs, thr, seed, used, j);
      && (forall k :: k in r.0 <==> j <= k < |bs| && !used[k] && Iou(bs[seed], bs[k]) > thr)
      && Increasing(r.0)
      && (forall k :: 0 <= k < |bs| ==> r.1[k] == (used[k] || k in r.0))
    decreases |bs| - j
  {
    if j == |bs| {
    } else if used[j] {
      JoinersSpec(bs, thr, seed, used, j + 1);
    } else if Iou(bs[seed], bs[j]) > thr {
      JoinersSpec(bs, thr, seed, used[j := true], j + 1);
      var rest := Joiners(bs, thr, seed, used[j := true], j + 1);
      assert Joiners(bs, thr, seed, used, j) == ([j] + rest.0, rest.1);
      forall k ensures k in [j] + rest.0 <==> j <= k < |bs| && !used[k] && Iou(bs[seed], bs[k]) > thr {
        if k in rest.0 {
          assert j < k && used[j := true][k] == used[k];
        }
      }
      assert Increasing([j] + rest.0) by {
        forall p | 0 < p < |[j] + rest.0| ensures j < ([j] + rest.0)[p] {
          assert rest.0[p - 1] in rest.0;
        }
      }
    } else {
      JoinersSpec(bs, thr, seed, used, j + 1);
    }
  }

  /** The outer step for an unused seed `i`, spelled out. */
  lemma ClustersFromStep(bs: seq<Box>, thr: real, used: seq<bool>, i: nat)
    requires |used| == |bs| && i < |bs| && !used[i]
    ensures var grabbed := Joiners(bs, thr, i, used[i := true], i + 1);
      var cs := ClustersFrom(bs, thr, used, i);
      && cs == [[i] + grabbed.0] + ClustersFrom(bs, thr, grabbed.1, i + 1)
      && cs[0] == [i] + grabbed.0
      && cs[1..] == ClustersFrom(bs, thr, grabbed.1, i + 1)
      && Flat(cs) == ([i] + grabbed.0) + Flat(ClustersFrom(bs, thr, grabbed.1, i + 1))
  {
  }

  /** The cluster a seed `i` forms is increasing, in range, and joined by IoU above `thr`. */
  lemma SeedCluster(bs: seq<Box>, thr: real, used: seq<bool>, i: nat)
    requires |used| == |bs| && i < |bs|
    ensures var grabbed := Joiners(bs, thr, i, used[i := true], i + 1);
      var c := [i] + grabbed.0;
      && Increasing(c)
      && (forall p :: 0 <= p < |c| ==> c[p] < |bs|)
      && (forall p :: 0 < p < |c| ==> Iou(bs[c[0]], bs[c[p]]) > thr)
      && (forall x :: x in c ==> grabbed.1[x])
      && (forall x :: x in grabbed.0 ==> i < x < |bs| && !used[x])
      && (forall k :: 0 <= k < |bs| && used[k] ==> grabbed.1[k])
      && (forall k :: 0 <= k < |bs| && !used[k] && k != i && k !in grabbed.0 ==> !grabbed.1[k])
  {
    var used' := used[i := true];
    var grabbed := Joiners(bs, thr, i, used', i + 1);
    JoinersSpec(bs, thr, i, used', i + 1);
    var c := [i] + grabbed.0;
    forall p | 0 < p < |c| ensures i < c[p] < |bs| && Iou(bs[c[0]], bs[c[p]]) > thr {
      assert c[p] == grabbed.0[p - 1];
      assert grabbed.0[p - 1] in grabbed.0;
    }
  }

  lemma {:induction false} ClustersFromShape(bs: seq<Box>, thr: real, used: seq<bool>, i: nat)
    requires |used| == |bs| && i <= |bs|
    ensures var cs := ClustersFrom(bs, thr, used, i);
      ValidClusters(cs, |bs|) && Seeded(bs, thr, cs) && |cs| <= |bs| - i
    decreases |bs| - i
  {
    if i == |bs| {
    } else if used[i] {
      ClustersFromShape(bs, thr, used, i + 1);
    } else {
      var grabbed := Joiners(bs, thr, i, used[i := true], i + 1);
      ClustersFromStep(bs, thr, used, i);
      SeedCluster(bs, thr, used, i);
      ClustersFromShape(bs, thr, grabbed.1, i + 1);
      var cs := ClustersFrom(bs, thr, used, i);
      forall c | 0 < c < |cs| ensures cs[c] == cs[1..][c - 1] { }
    }
  }

  lemma {:induction false} ClustersFromCover(bs: seq<Box>, thr: real, used: seq<bool>, i: nat)
    requires |used| == |bs| && i <= |bs|
    ensures var cs := ClustersFrom(bs, thr, used, i);
      && NoDup(Flat(cs))
      && (forall k :: k in Flat(cs) <==> i <= k < |bs| && !used[k])
    decreases |bs| - i
  {
    if i == |bs| {
    } else if used[i] {
      ClustersFromCover(bs, thr, used, i + 1);
    } else {
      var grabbed := Joiners(bs, thr, i, used[i := true], i + 1);
      ClustersFromStep(bs, thr, used, i);
      SeedCluster(bs, thr, used, i);
      ClustersFromCover(bs, thr, grabbed.1, i + 1);
      var c := [i] + grabbed.0;
      var rest := Flat(ClustersFrom(bs, thr, grabbed.1, i + 1));
      assert Flat(ClustersFrom(bs, thr, used, i)) == c + rest;
      IncreasingNoDup(c);
      NoDupConcat(c, rest);
      forall k ensures k in c + rest <==> i <= k < |bs| && !used[k] {
        if k in rest {
          assert i + 1 <= k < |bs| && !grabbed.1[k];
        }
      }
    }
  }

  /** The clusters of one label partition the label's boxes: every box index occurs in the
      flattened clusters exactly once, no other index occurs, and there are at most as many
      clusters as boxes. A box joins a cluster only after its seed and only if its IoU with
      the seed is above `thr`. */
  lemma ClustersPartition(bs: seq<Box>, thr: real)
    ensures var cs := Clusters(bs, thr);
      && ValidClusters(cs, |bs|)
      && Seeded(bs, thr, cs)
      && NoDup(Flat(cs))
      && (forall k :: k in Flat(cs) <==> 0 <= k < |bs|)
      && |cs| <= |bs|
  {
    ClustersFromShape(bs, thr, AllUnused(|bs|), 0);
    ClustersFromCover(bs, thr, AllUnused(|bs|), 0);
  }

  lemma ClustersValid(bs: seq<Box>, thr: real)
    ensures ValidClusters(Clusters(bs, thr), |bs|)
  {
    ClustersFromShape(bs, thr, AllUnused(|bs|), 0);
  }

  /** With the partition, each box index belongs to one cluster and to no other. */
  lemma {:induction false} InExactlyOneCluster(cs: seq<seq<nat>>, k: nat)
    requires NoDup(Flat(cs)) && k in Flat(cs)
    ensures exists c :: 0 <= c < |cs| && k in cs[c] && forall d :: 0 <= d < |cs| && d != c ==> k !in cs[d]
  {
    assert Flat(cs) == cs[0] + Flat(cs[1..]);
    NoDupSplit(cs[0], Flat(cs[1..]));
    if k in cs[0] {
      forall d | 0 < d < |cs| ensures k !in cs[d] {
        assert cs[d] == cs[1..][d - 1];
        FlatContains(cs[1..], d - 1, k);
      }
    } else {
      InExactlyOneCluster(cs[1..], k);
      var c :| 0 <= c < |cs[1..]| && k in cs[1..][c]
        && forall d :: 0 <= d < |cs[1..]| && d != c ==> k !in cs[1..][d];
      assert k in cs[c + 1];
      forall d | 0 <= d < |cs| && d != c + 1 ensures k !in cs[d] {
        if d > 0 { assert cs[d] == cs[1..][d - 1]; }
      }
    }
  }

  lemma {:induction false} FlatContains(cs: seq<seq<nat>>, c: nat, k: nat)
    requires c < |cs|
    ensures k in cs[c] ==> k in Flat(cs)
  {
    assert Flat(cs) == cs[0] + Flat(cs[1..]);
    if c > 0 {
      FlatContains(cs[1..], c - 1, k);
    }
  }

  // ---------------------------------------------------------------------------
  // Merging one cluster: np.average with normalised weights, np.mean of the scores
  // ---------------------------------------------------------------------------

  function Pick<T>(xs: seq<T>, c: seq<nat>): (r: seq<T>)
    requires forall p :: 0 <= p < |c| ==> c[p] < |xs|
    ensures |r| == |c| && forall p :: 0 <= p < |c| ==> r[p] == xs[c[p]]
  {
    seq(|c|, p requires 0 <= p < |c| => xs[c[p]])
  }

  /** Coordinate `a` of every box of the cluster (one column of `cluster_boxes`). */
  function Column(cb: seq<Box>, a: nat): (r: seq<real>)
    requires a < 4
    ensures |r| == |cb| && forall p :: 0 <= p < |cb| ==> r[p] == cb[p].At(a)
  {
    seq(|cb|, p requires 0 <= p < |cb| => cb[p].At(a))
  }

  /** `weights / weights.sum()` */
  function DivideAll(ws: seq<real>, total: real): (r: seq<real>)
    requires total > 0.0
    ensures |r| == |ws| && forall p :: 0 <= p < |ws| ==> r[p] == ws[p] / total
    ensures AllPositive(ws) ==> AllPositive(r)
  {
    seq(|ws|, p requires 0 <= p < |ws| => ws[p] / total)
  }

  function WeightedSum(ws: seq<real>, xs: seq<real>): real
    requires |ws| == |xs|
  {
    if |ws| == 0 then 0.0 else ws[0] * xs[0] + WeightedSum(ws[1..], xs[1..])
  }

  /** `np.average(xs, weights=ws)` */
  function Average(xs: seq<real>, ws: seq<real>): real
    requires |xs| == |ws| && Sum(ws) > 0.0
  {
    WeightedSum(ws, xs) / Sum(ws)
  }

  /** `np.mean(xs)` */
  function Mean(xs: seq<real>): real
    requires |xs| > 0
  {
    Sum(xs) / (|xs| as real)
  }

  /** The fused entry of one cluster, from its boxes and scores. */
  function MergeCluster(cb: seq<Box>, cs: seq<real>, cls: int): Entry
    requires |cb| == |cs| > 0 && AllPositive(cs)
  {
    SumPositive(cs);
    var ws := DivideAll(cs, Sum(cs));
    SumPositive(ws);
    Entry(Box(Average(Column(cb, 0), ws), Average(Column(cb, 1), ws),
              Average(Column(cb, 2), ws), Average(Column(cb, 3), ws)),
          Mean(cs), cls)
  }

  lemma MulLe(w: real, x: real, y: real)
    requires w >= 0.0 && x <= y
    ensures w * x <= w * y
  {
  }

  lemma MulLt(w: real, x: real, y: real)
    requires w > 0.0 && x < y
    ensures w * x < w * y
  {
  }

  /** One step of the bound: adding a term `w * x` with `lo <= x <= hi`. */
  lemma WeightedStep(w: real, x: real, s: real, t: real, lo: real, hi: real)
    requires w > 0.0 && lo <= x <= hi && lo * s <= t <= hi * s
    ensures lo * (w + s) <= w * x + t <= hi * (w + s)
  {
    MulLe(w, lo, x);
    MulLe(w, x, hi);
    assert lo * (w + s) == w * lo + lo * s;
    assert hi * (w + s) == w * hi + hi * s;
  }

  lemma {:induction false} WeightedSumBounds(ws: seq<real>, xs: seq<real>, lo: real, hi: real)
    requires |ws| == |xs| && AllPositive(ws)
    requires forall p :: 0 <= p < |xs| ==> lo <= xs[p] <= hi
    ensures lo * Sum(ws) <= WeightedSum(ws, xs) <= hi * Sum(ws)
  {
    if |ws| > 0 {
      var s, t := Sum(ws[1..]), WeightedSum(ws[1..], xs[1..]);
      WeightedSumBounds(ws[1..], xs[1..], lo, hi);
      WeightedStep(ws[0], xs[0], s, t, lo, hi);
      assert Sum(ws) == ws[0] + s && WeightedSum(ws, xs) == ws[0] * xs[0] + t;
    }
  }

  lemma {:induction false} WeightedSumStrict(ws: seq<real>, xs: seq<real>, ys: seq<real>)
    requires |ws| == |xs| == |ys| > 0 && AllPositive(ws)
    requires forall p :: 0 <= p < |xs| ==> xs[p] < ys[p]
    ensures WeightedSum(ws, xs) < WeightedSum(ws, ys)
  {
    MulLt(ws[0], xs[0], ys[0]);
    if |ws| > 1 {
      WeightedSumStrict(ws[1..], xs[1..], ys[1..]);
    }
  }

  lemma DivBounds(a: real, s: real, lo: real, hi: real)
    requires s > 0.0 && lo * s <= a <= hi * s
    ensures lo <= a / s <= hi
  {
  }

  lemma DivStrict(a: real, b: real, s: real)
    requires s > 0.0 && a < b
    ensures a / s < b / s
  {
  }

  /** With positive weights the average lies between the smallest and the largest value. */
  lemma AverageWithin(xs: seq<real>, ws: seq<real>, lo: real, hi: real)
    requires |xs| == |ws| > 0 && AllPositive(ws)
    requires forall p :: 0 <= p < |xs| ==> lo <= xs[p] <= hi
    ensures Sum(ws) > 0.0
    ensures lo <= Average(xs, ws) <= hi
  {
    SumPositive(ws);
    WeightedSumBounds(ws, xs, lo, hi);
    DivBounds(WeightedSum(ws, xs), Sum(ws), lo, hi);
  }

  /** Each merged coordinate lies between that coordinate's minimum and maximum over the
      cluster (any bounds `lo`, `hi` of the cluster's coordinates bound the merged one). */
  lemma MergeWithin(cb: seq<Box>, cs: seq<real>, cls: int, a: nat, lo: real, hi: real)
    requires |cb| == |cs| > 0 && AllPositive(cs) && a < 4
    requires forall p :: 0 <= p < |cb| ==> lo <= cb[p].At(a) <= hi
    ensures lo <= MergeCluster(cb, cs, cls).box.At(a) <= hi
  {
    SumPositive(cs);
    var ws := DivideAll(cs, Sum(cs));
    AverageWithin(Column(cb, a), ws, lo, hi);
  }

  /** The merged box of boxes with positive width and height has positive width and height. */
  lemma MergeProper(cb: seq<Box>, cs: seq<real>, cls: int)
    requires |cb| == |cs| > 0 && AllPositive(cs)
    requires forall p :: 0 <= p < |cb| ==> cb[p].Proper()
    ensures MergeCluster(cb, cs, cls).box.Proper()
  {
    SumPositive(cs);
    var ws := DivideAll(cs, Sum(cs));
    SumPositive(ws);
    WeightedSumStrict(ws, Column(cb, 0), Column(cb, 2));
    WeightedSumStrict(ws, Column(cb, 1), Column(cb, 3));
    DivStrict(WeightedSum(ws, Column(cb, 0)), WeightedSum(ws, Column(cb, 2)), Sum(ws));
    DivStrict(WeightedSum(ws, Column(cb, 1)), WeightedSum(ws, Column(cb, 3)), Sum(ws));
  }

  /** The merged score is the mean of the cluster's scores: it lies within their bounds, and
      it is 1.0 when every score is 1.0, as the dataset converter sets them. */
  lemma MergeScore(cb: seq<Box>, cs: seq<real>, cls: int, lo: real, hi: real)
    requires |cb| == |cs| > 0 && AllPositive(cs)
    requires forall p :: 0 <= p < |cs| ==> lo <= cs[p] <= hi
    ensures lo <= MergeCluster(cb, cs, cls).score <= hi
    ensures lo == hi ==> MergeCluster(cb, cs, cls).score == lo
  {
    SumBounds(cs, lo, hi);
    DivBounds(Sum(cs), |cs| as real, lo, hi);
  }

  // ---------------------------------------------------------------------------
  // One label, and the whole fusion
  // ---------------------------------------------------------------------------

  function MergeAt(bs: seq<Box>, ss: seq<real>, c: seq<nat>, cls: int): Entry
    requires |bs| == |ss| && AllPositive(ss)
    requires |c| > 0 && forall p :: 0 <= p < |c| ==> c[p] < |bs|
  {
    MergeCluster(Pick(bs, c), Pick(ss, c), cls)
  }

  /** One merged entry per cluster, in cluster order. */
  function MergeAll(bs: seq<Box>, ss: seq<real>, cs: seq<seq<nat>>, cls: int): (r: seq<Entry>)
    requires |bs| == |ss| && AllPositive(ss) && ValidClusters(cs, |bs|)
    ensures |r| == |cs|
  {
    if cs == [] then []
    else MergeAll(bs, ss, cs[..|cs| - 1], cls) + [MergeAt(bs, ss, cs[|cs| - 1], cls)]
  }

  /** Entry `k` of the merged list is the merge of cluster `k`. */
  lemma {:induction false} MergeAllAt(bs: seq<Box>, ss: seq<real>, cs: seq<seq<nat>>, cls: int)
    requires |bs| == |ss| && AllPositive(ss) && ValidClusters(cs, |bs|)
    ensures forall k :: 0 <= k < |cs| ==> MergeAll(bs, ss, cs, cls)[k] == MergeAt(bs, ss, cs[k], cls)
  {
    if cs != [] {
      var init := cs[..|cs| - 1];
      assert forall d :: 0 <= d < |init| ==> init[d] == cs[d];
      MergeAllAt(bs, ss, init, cls);
    }
  }

  /** Appending a cluster appends its merged entry. */
  lemma MergeAllSnoc(bs: seq<Box>, ss: seq<real>, cs: seq<seq<nat>>, c: seq<nat>, cls: int)
    requires |bs| == |ss| && AllPositive(ss) && ValidClusters(cs, |bs|)
    requires |c| > 0 && forall p :: 0 <= p < |c| ==> c[p] < |bs|
    ensures ValidClusters(cs + [c], |bs|)
    ensures MergeAll(bs, ss, cs + [c], cls) == MergeAll(bs, ss, cs, cls) + [MergeAt(bs, ss, c, cls)]
  {
    var cs' := cs + [c];
    assert forall d :: 0 <= d < |cs| ==> cs'[d] == cs[d];
    assert cs'[..|cs|] == cs && cs'[|cs|] == c;
  }

  /** The fused entries of the boxes `bs` (scores `ss`) of one label, one per cluster. */
  function FusedLabel(bs: seq<Box>, ss: seq<real>, cls: int, thr: real): seq<Entry>
    requires |bs| == |ss| && AllPositive(ss)
  {
    ClustersValid(bs, thr);
    MergeAll(bs, ss, Clusters(bs, thr), cls)
  }

  /** The fused entries of the entries of `es` carrying label `l`. */
  function FuseOneLabel(es: seq<Entry>, l: int, thr: real): seq<Entry>
    requires PositiveScores(es)
  {
    var group := WithLabel(es, l);
    WithLabelPositive(es, l);
    FusedLabel(BoxesOf(group), ScoresOf(group), l, thr)
  }

  /** The fused entries of every label of `labels`, label after label. */
  function FuseLabels(es: seq<Entry>, labels: seq<int>, thr: real): seq<Entry>
    requires PositiveScores(es)
  {
    if labels == [] then [] else FuseOneLabel(es, labels[0], thr) + FuseLabels(es, labels[1..], thr)
  }

  /** The result of `weighted_boxes_fusion`, as one list of entries. */
  function Fuse(bl: seq<seq<Box>>, sl: seq<seq<real>>, ll: seq<seq<int>>, iouThr: real, skipThr: real): seq<Entry>
    requires skipThr >= 0.0
  {
    if |bl| == 0 then []
    else
      var es := AllSurvivors(bl, sl, ll, skipThr);
      if |es| == 0 then [] else FuseLabels(es, Unique(LabelsOf(es)), iouThr)
  }

  // ---------------------------------------------------------------------------
  // The imperative algorithm
  // ---------------------------------------------------------------------------

  /** The inner loop of lines 75-81: box `i` is flagged, then every later unflagged box whose
      IoU with box `i` exceeds `thr` is appended to the cluster and flagged. */
  method GrowCluster(bs: seq<Box>, ss: seq<real>, thr: real, used: array<bool>, i: nat)
    returns (clusterBoxes: seq<Box>, clusterScores: seq<real>, ghost members: seq<nat>)
    requires used.Length == |bs| == |ss| && i < |bs| && !used[i]
    modifies used
    ensures forall p :: 0 <= p < |members| ==> i < members[p] < |bs|
    ensures var grabbed := Joiners(bs, thr, i, old(used[..])[i := true], i + 1);
      members == grabbed.0 && used[..] == grabbed.1
    ensures clusterBoxes == Pick(bs, [i] + members) && clusterScores == Pick(ss, [i] + members)
  {
    var n := |bs|;
    clusterBoxes, clusterScores := [bs[i]], [ss[i]];
    members := [];
    used[i] := true;
    ghost var start := used[..];
    assert start == old(used[..])[i := true];
    var j := i + 1;
    while j < n
      invariant i + 1 <= j <= n
      invariant members + Joiners(bs, thr, i, used[..], j).0 == Joiners(bs, thr, i, start, i + 1).0
      invariant Joiners(bs, thr, i, used[..], j).1 == Joiners(bs, thr, i, start, i + 1).1
      invariant forall p :: 0 <= p < |members| ==> i < members[p] < j
      invariant clusterBoxes == Pick(bs, [i] + members) && clusterScores == Pick(ss, [i] + members)
    {
      if !used[j] && Iou(bs[i], bs[j]) > thr {
        ghost var prior := used[..];
        clusterBoxes := clusterBoxes + [bs[j]];
        clusterScores := clusterScores + [ss[j]];
        used[j] := true;
        assert used[..] == prior[j := true];
        members := members + [j];
      }
      j := j + 1;
    }
  }

  /** Grow the cluster seeded by box `i` and merge it (lines 70-91). */
  method MergeSeeded(bs: seq<Box>, ss: seq<real>, thr: real, cls: int, used: array<bool>, i: nat)
    returns (merged: Entry, ghost cluster: seq<nat>)
    requires used.Length == |bs| == |ss| && AllPositive(ss) && i < |bs| && !used[i]
    modifies used
    ensures var g := Joiners(bs, thr, i, old(used[..])[i := true], i + 1);
      cluster == [i] + g.0 && used[..] == g.1
    ensures forall p :: 0 <= p < |cluster| ==> cluster[p] < |bs|
    ensures merged == MergeAt(bs, ss, cluster, cls)
  {
    var clusterBoxes, clusterScores, members := GrowCluster(bs, ss, thr, used, i);
    cluster := [i] + members;
    merged := MergeCluster(clusterBoxes, clusterScores, cls);
  }

  /** One pass of the outer clustering loop: seed `i` and its joiners form the next cluster. */
  lemma ClusterStep(bs: seq<Box>, ss: seq<real>, thr: real, cls: int, clusters: seq<seq<nat>>, used: seq<bool>, i: nat)
    requires |bs| == |ss| && AllPositive(ss) && |used| == |bs| && i < |bs| && !used[i]
    requires clusters + ClustersFrom(bs, thr, used, i) == Clusters(bs, thr)
    requires ValidClusters(clusters, |bs|)
    ensures var g := Joiners(bs, thr, i, used[i := true], i + 1);
      var c := [i] + g.0;
      && (clusters + [c]) + ClustersFrom(bs, thr, g.1, i + 1) == Clusters(bs, thr)
      && ValidClusters(clusters + [c], |bs|)
      && (forall p :: 0 <= p < |c| ==> c[p] < |bs|)
      && MergeAll(bs, ss, clusters + [c], cls) == MergeAll(bs, ss, clusters, cls) + [MergeAt(bs, ss, c, cls)]
  {
    var g := Joiners(bs, thr, i, used[i := true], i + 1);
    var c := [i] + g.0;
    var rest := ClustersFrom(bs, thr, g.1, i + 1);
    ClustersFromStep(bs, thr, used, i);
    assert ClustersFrom(bs, thr, used, i) == [c] + rest;
    assert (clusters + [c]) + rest == clusters + ([c] + rest);
    SeedCluster(bs, thr, used, i);
    MergeAllSnoc(bs, ss, clusters, c, cls);
  }

  /** A used box seeds no cluster. */
  lemma ClustersFromSkip(bs: seq<Box>, thr: real, used: seq<bool>, i: nat)
    requires |used| == |bs| && i < |bs| && used[i]
    ensures ClustersFrom(bs, thr, used, i) == ClustersFrom(bs, thr, used, i + 1)
  {
  }

  /** Past the last box no cluster is left: the clusters formed so far are all of them. */
  lemma ClustersDone(bs: seq<Box>, thr: real, used: seq<bool>, clusters: seq<seq<nat>>)
    requires |used| == |bs| && clusters + ClustersFrom(bs, thr, used, |bs|) == Clusters(bs, thr)
    ensures clusters == Clusters(bs, thr)
  {
    assert ClustersFrom(bs, thr, used, |bs|) == [];
  }

  /** One pass of the outer clustering loop on an unused box `i`: its cluster is grown, merged
      and appended, and the clusters still to come are those of the new flags. */
  method ClusterPass(bs: seq<Box>, ss: seq<real>, thr: real, cls: int, used: array<bool>, i: nat,
                     ghost clusters: seq<seq<nat>>)
    returns (merged: Entry, ghost cluster: seq<nat>)
    requires used.Length == |bs| == |ss| && AllPositive(ss) && i < |bs| && !used[i]
    requires clusters + ClustersFrom(bs, thr, used[..], i) == Clusters(bs, thr)
    requires ValidClusters(clusters, |bs|)
    modifies used
    ensures (clusters + [cluster]) + ClustersFrom(bs, thr, used[..], i + 1) == Clusters(bs, thr)
    ensures ValidClusters(clusters + [cluster], |bs|)
    ensures MergeAll(bs, ss, clusters + [cluster], cls) == MergeAll(bs, ss, clusters, cls) + [merged]
  {
    ClusterStep(bs, ss, thr, cls, clusters, used[..], i);
    merged, cluster := MergeSeeded(bs, ss, thr, cls, used, i);
  }

  /** One turn of the outer clustering loop: an unused box `i` seeds a cluster, which is
      merged and appended; a used box is passed over. */
  method LabelStep(bs: seq<Box>, ss: seq<real>, thr: real, cls: int, used: array<bool>, i: nat,
                   ghost clusters: seq<seq<nat>>, out: seq<Entry>)
    returns (out': seq<Entry>, ghost clusters': seq<seq<nat>>)
    requires used.Length == |bs| == |ss| && AllPositive(ss) && i < |bs|
    requires clusters + ClustersFrom(bs, thr, used[..], i) == Clusters(bs, thr)
    requires ValidClusters(clusters, |bs|)
    requires out == MergeAll(bs, ss, clusters, cls)
    modifies used
    ensures clusters' + ClustersFrom(bs, thr, used[..], i + 1) == Clusters(bs, thr)
    ensures ValidClusters(clusters', |bs|)
    ensures out' == MergeAll(bs, ss, clusters', cls)
  {
    if !used[i] {
      var merged, cluster := ClusterPass(bs, ss, thr, cls, used, i, clusters);
      out', clusters' := out + [merged], clusters + [cluster];
    } else {
      ClustersFromSkip(bs, thr, used[..], i);
      out', clusters' := out, clusters;
    }
  }

  /** The clustering loop for the boxes of one label (lines 67-91): a `used` flag per box;
      each unused box seeds a cluster, which is merged and appended. */
  method FuseLabel(bs: seq<Box>, ss: seq<real>, cls: int, thr: real) returns (out: seq<Entry>)
    requires |bs| == |ss| && AllPositive(ss)
    ensures out == FusedLabel(bs, ss, cls, thr)
  {
    var n := |bs|;
    var used := new bool[n](_ => false);
    ghost var clusters: seq<seq<nat>> := [];
    out := [];
    assert used[..] == AllUnused(n);
    var i := 0;
    while i < n
      invariant 0 <= i <= n && used.Length == n
      invariant clusters + ClustersFrom(bs, thr, used[..], i) == Clusters(bs, thr)
      invariant ValidClusters(clusters, n)
      invariant out == MergeAll(bs, ss, clusters, cls)
    {
      out, clusters := LabelStep(bs, ss, thr, cls, used, i, clusters, out);
      i := i + 1;
    }
    ClustersDone(bs, thr, used[..], clusters);
  }

  /** The flattening loops of lines 37-46: every box scored above `skipBoxThr`, in input order. */
  method FlattenSurvivors(boxesList: seq<seq<Box>>, scoresList: seq<seq<real>>, labelsList: seq<seq<int>>,
                          skipBoxThr: real)
    returns (all: seq<Entry>)
    ensures all == AllSurvivors(boxesList, scoresList, labelsList, skipBoxThr)
  {
    all := [];
    var groups := Min3(|boxesList|, |scoresList|, |labelsList|);
    var p := 0;
    while p < groups
      invariant 0 <= p <= groups
      invariant all == Survivors(boxesList, scoresList, labelsList, skipBoxThr, p)
    {
      var bs, ss, ls := boxesList[p], scoresList[p], labelsList[p];
      var rows := Min3(|bs|, |ss|, |ls|);
      ghost var prefix := all;
      var q := 0;
      while q < rows
        invariant 0 <= q <= rows
        invariant all == prefix + Kept(bs, ss, ls, skipBoxThr, q)
      {
        if ss[q] > skipBoxThr {
          all := all + [Entry(bs[q], ss[q], ls[q])];
        }
        q := q + 1;
      }
      p := p + 1;
    }
  }

  /** `FuseLabels` on a suffix of the labels, one label unfolded. */
  lemma FuseLabelsStep(es: seq<Entry>, labels: seq<int>, li: nat, thr: real)
    requires PositiveScores(es) && li < |labels|
    ensures FuseLabels(es, labels[li..], thr)
         == FuseOneLabel(es, labels[li], thr) + FuseLabels(es, labels[li + 1..], thr)
  {
    assert labels[li..][0] == labels[li] && labels[li..][1..] == labels[li + 1..];
  }

  /** The loop over the labels in ascending order (lines 55-91): each label's boxes are
      clustered and merged, and the results are appended label after label. */
  method FuseAllLabels(all: seq<Entry>, uniqueLabels: seq<int>, iouThr: real) returns (fused: seq<Entry>)
    requires PositiveScores(all)
    ensures fused == FuseLabels(all, uniqueLabels, iouThr)
  {
    fused := [];
    var li := 0;
    while li < |uniqueLabels|
      invariant 0 <= li <= |uniqueLabels|
      invariant fused + FuseLabels(all, uniqueLabels[li..], iouThr) == FuseLabels(all, uniqueLabels, iouThr)
    {
      var cls := uniqueLabels[li];
      var group := WithLabel(all, cls);
      WithLabelPositive(all, cls);
      var merged := FuseLabel(BoxesOf(group), ScoresOf(group), cls, iouThr);
      FuseLabelsStep(all, uniqueLabels, li, iouThr);
      ghost var rest := FuseLabels(all, uniqueLabels[li + 1..], iouThr);
      assert fused + (merged + rest) == (fused + merged) + rest;
      fused := fused + merged;
      li := li + 1;
    }
    assert uniqueLabels[li..] == [];
  }

  /** `weighted_boxes_fusion(boxes_list, scores_list, labels_list, iou_thr, skip_box_thr)`:
      the three result arrays are the boxes, scores and labels of `Fuse`. */
  method WeightedBoxesFusion(boxesList: seq<seq<Box>>, scoresList: seq<seq<real>>, labelsList: seq<seq<int>>,
                             iouThr: real, skipBoxThr: real)
    returns (boxes: seq<Box>, scores: seq<real>, labels: seq<int>)
    requires skipBoxThr >= 0.0
    ensures var r := Fuse(boxesList, scoresList, labelsList, iouThr, skipBoxThr);
      boxes == BoxesOf(r) && scores == ScoresOf(r) && labels == LabelsOf(r)
  {
    if |boxesList| == 0 {
      return [], [], [];
    }
    var all := FlattenSurvivors(boxesList, scoresList, labelsList, skipBoxThr);
    if |all| == 0 {
      return [], [], [];
    }
    var fused := FuseAllLabels(all, Unique(LabelsOf(all)), iouThr);
    boxes, scores, labels := BoxesOf(fused), ScoresOf(fused), LabelsOf(fused);
  }

  // ---------------------------------------------------------------------------
  // Properties of the fusion
  // ---------------------------------------------------------------------------

  /** One label's boxes yield at least one and at most as many fused entries, all with that label. */
  lemma FusedLabelShape(bs: seq<Box>, ss: seq<real>, cls: int, thr: real)
    requires |bs| == |ss| && AllPositive(ss)
    ensures var r := FusedLabel(bs, ss, cls, thr);
      && |r| <= |bs|
      && (|bs| > 0 ==> |r| > 0)
      && forall k :: 0 <= k < |r| ==> r[k].cls == cls
  {
    ClustersPartition(bs, thr);
    MergeAllAt(bs, ss, Clusters(bs, thr), cls);
    if |bs| > 0 {
      assert 0 in Flat(Clusters(bs, thr));
    }
  }

  /** How many entries the masks of the labels `ls` select together. */
  function CountWithLabels(es: seq<Entry>, ls: seq<int>): nat
  {
    if ls == [] then 0 else |WithLabel(es, ls[0])| + CountWithLabels(es, ls[1..])
  }

  function Occurrences(ls: seq<int>, x: int): nat
  {
    if ls == [] then 0 else (if ls[0] == x then 1 else 0) + Occurrences(ls[1..], x)
  }

  lemma {:induction false} OccurrencesAbsent(ls: seq<int>, x: int)
    requires x !in ls
    ensures Occurrences(ls, x) == 0
  {
    if ls != [] {
      OccurrencesAbsent(ls[1..], x);
    }
  }

  lemma {:induction false} OccurrencesAtMostOne(ls: seq<int>, x: int)
    requires Increasing(ls)
    ensures Occurrences(ls, x) <= 1
  {
    if ls != [] {
      if ls[0] == x {
        OccurrencesAbsent(ls[1..], x);
      } else {
        OccurrencesAtMostOne(ls[1..], x);
      }
    }
  }

  lemma {:induction false} CountSnoc(es: seq<Entry>, e: Entry, ls: seq<int>)
    ensures CountWithLabels(es + [e], ls) == CountWithLabels(es, ls) + Occurrences(ls, e.cls)
  {
    if ls != [] {
      assert (es + [e])[..|es + [e]| - 1] == es;
      CountSnoc(es, e, ls[1..]);
    }
  }

  /** The masks of distinct labels select every entry at most once. */
  lemma {:induction false} CountAtMost(es: seq<Entry>, ls: seq<int>)
    requires Increasing(ls)
    ensures CountWithLabels(es, ls) <= |es|
  {
    if es == [] {
      CountEmpty(ls);
    } else {
      var init, last := es[..|es| - 1], es[|es| - 1];
      assert es == init + [last];
      CountAtMost(init, ls);
      CountSnoc(init, last, ls);
      OccurrencesAtMostOne(ls, last.cls);
    }
  }

  lemma {:induction false} CountEmpty(ls: seq<int>)
    ensures CountWithLabels([], ls) == 0
  {
    if ls != [] {
      CountEmpty(ls[1..]);
    }
  }

  lemma {:induction false} FuseLabelsCount(es: seq<Entry>, ls: seq<int>, thr: real)
    requires PositiveScores(es)
    ensures |FuseLabels(es, ls, thr)| <= CountWithLabels(es, ls)
  {
    if ls != [] {
      var group := WithLabel(es, ls[0]);
      WithLabelPositive(es, ls[0]);
      FusedLabelShape(BoxesOf(group), ScoresOf(group), ls[0], thr);
      FuseLabelsCount(es, ls[1..], thr);
    }
  }

  /** Every fused entry stands for at least one surviving box: there are never more outputs
      than boxes scored above the threshold. */
  lemma FusionCount(bl: seq<seq<Box>>, sl: seq<seq<real>>, ll: seq<seq<int>>, iouThr: real, skipThr: real)
    requires skipThr >= 0.0
    ensures |Fuse(bl, sl, ll, iouThr, skipThr)| <= |AllSurvivors(bl, sl, ll, skipThr)|
  {
    var es := AllSurvivors(bl, sl, ll, skipThr);
    if |bl| > 0 && |es| > 0 {
      var ls := Unique(LabelsOf(es));
      FuseLabelsCount(es, ls, iouThr);
      CountAtMost(es, ls);
    }
  }

  /** The output is empty exactly when there are no lists or no box scores above the threshold. */
  lemma FusionEmptyIff(bl: seq<seq<Box>>, sl: seq<seq<real>>, ll: seq<seq<int>>, iouThr: real, skipThr: real)
    requires skipThr >= 0.0
    ensures Fuse(bl, sl, ll, iouThr, skipThr) == [] <==> |bl| == 0 || !AnyAbove(bl, sl, ll, skipThr)
  {
    AllSurvivorsEmpty(bl, sl, ll, skipThr);
    var es := AllSurvivors(bl, sl, ll, skipThr);
    if |bl| > 0 && |es| > 0 {
      var ls := Unique(LabelsOf(es));
      assert LabelsOf(es)[0] in LabelsOf(es);
      assert ls != [];
      assert ls[0] in LabelsOf(es);
      var k :| 0 <= k < |es| && LabelsOf(es)[k] == ls[0];
      var group := WithLabel(es, ls[0]);
      assert es[k].cls == ls[0];
      WithLabelPositive(es, ls[0]);
      FusedLabelShape(BoxesOf(group), ScoresOf(group), ls[0], iouThr);
    }
  }

  /** The labels of `r` never decrease. */
  predicate LabelsAscending(r: seq<Entry>)
  {
    forall i, j :: 0 <= i < j < |r| ==> r[i].cls <= r[j].cls
  }

  predicate LabelsAmong(r: seq<Entry>, ls: seq<int>)
  {
    forall k :: 0 <= k < |r| ==> r[k].cls in ls
  }

  lemma AscendingConcat(block: seq<Entry>, rest: seq<Entry>, x: int)
    requires forall k :: 0 <= k < |block| ==> block[k].cls == x
    requires forall k :: 0 <= k < |rest| ==> x < rest[k].cls
    requires LabelsAscending(rest)
    ensures LabelsAscending(block + rest)
  {
    var r := block + rest;
    forall i, j | 0 <= i < j < |r| ensures r[i].cls <= r[j].cls {
      if i >= |block| {
        assert r[i] == rest[i - |block|] && r[j] == rest[j - |block|];
      } else if j >= |block| {
        assert r[i] == block[i] && r[j] == rest[j - |block|];
      } else {
        assert r[i] == block[i] && r[j] == block[j];
      }
    }
  }

  lemma AmongConcat(block: seq<Entry>, rest: seq<Entry>, ls: seq<int>)
    requires ls != [] && (forall k :: 0 <= k < |block| ==> block[k].cls == ls[0]) && LabelsAmong(rest, ls[1..])
    ensures LabelsAmong(block + rest, ls)
  {
    var r := block + rest;
    forall k | 0 <= k < |r| ensures r[k].cls in ls {
      if k >= |block| {
        assert r[k] == rest[k - |block|];
        assert rest[k - |block|].cls in ls[1..];
      } else {
        assert r[k] == block[k];
      }
    }
  }

  lemma {:induction false} FuseLabelsOrdered(es: seq<Entry>, ls: seq<int>, thr: real)
    requires PositiveScores(es) && Increasing(ls)
    ensures LabelsAmong(FuseLabels(es, ls, thr), ls) && LabelsAscending(FuseLabels(es, ls, thr))
  {
    if ls != [] {
      var group := WithLabel(es, ls[0]);
      WithLabelPositive(es, ls[0]);
      FusedLabelShape(BoxesOf(group), ScoresOf(group), ls[0], thr);
      FuseLabelsOrdered(es, ls[1..], thr);
      var block := FusedLabel(BoxesOf(group), ScoresOf(group), ls[0], thr);
      var rest := FuseLabels(es, ls[1..], thr);
      assert forall k :: 0 <= k < |rest| ==> ls[0] < rest[k].cls by {
        forall k | 0 <= k < |rest| ensures ls[0] < rest[k].cls {
          var j :| 0 <= j < |ls[1..]| && ls[1..][j] == rest[k].cls;
          assert ls[j + 1] == rest[k].cls;
        }
      }
      AscendingConcat(block, rest, ls[0]);
      AmongConcat(block, rest, ls);
    }
  }

  /** Outputs come grouped by ascending label, and every output label is the label of some
      surviving input box. */
  lemma FusionLabels(bl: seq<seq<Box>>, sl: seq<seq<real>>, ll: seq<seq<int>>, iouThr: real, skipThr: real)
    requires skipThr >= 0.0
    ensures LabelsAscending(Fuse(bl, sl, ll, iouThr, skipThr))
    ensures LabelsAmong(Fuse(bl, sl, ll, iouThr, skipThr), LabelsOf(AllSurvivors(bl, sl, ll, skipThr)))
  {
    var es := AllSurvivors(bl, sl, ll, skipThr);
    if |bl| > 0 && |es| > 0 {
      var ls := Unique(LabelsOf(es));
      FuseLabelsOrdered(es, ls, iouThr);
    }
  }

  // ---------------------------------------------------------------------------
  // Every surviving box reaches exactly one cluster
  // ---------------------------------------------------------------------------

  /** The mask of label `l` keeps every entry carrying `l`, as often as it occurs, and no
      other entry. */
  lemma {:induction false} WithLabelSpec(es: seq<Entry>, l: int)
    ensures forall e :: multiset(WithLabel(es, l))[e] == if e.cls == l then multiset(es)[e] else 0
    ensures forall k :: 0 <= k < |es| && es[k].cls == l ==> es[k] in WithLabel(es, l)
  {
    if es != [] {
      var init, last := es[..|es| - 1], es[|es| - 1];
      WithLabelSpec(init, l);
      assert es == init + [last];
      assert multiset(es) == multiset(init) + multiset{last};
    }
    forall k | 0 <= k < |es| && es[k].cls == l ensures es[k] in WithLabel(es, l) {
      assert es[k] in multiset(es);
    }
  }

  /** The masks of `labels`, one after another. */
  function Masks(es: seq<Entry>, labels: seq<int>): seq<Entry>
  {
    if labels == [] then [] else WithLabel(es, labels[0]) + Masks(es, labels[1..])
  }

  lemma IncreasingTail(ls: seq<int>)
    requires Increasing(ls) && ls != []
    ensures Increasing(ls[1..]) && ls[0] !in ls[1..]
  {
    var rest := ls[1..];
    forall k | 0 <= k < |rest| ensures rest[k] == ls[k + 1] { }
  }

  /** The masks of distinct labels hold each entry whose label is among them, as often as it
      occurs, and no other entry. */
  lemma {:induction false} MasksSpec(es: seq<Entry>, labels: seq<int>)
    requires Increasing(labels)
    ensures forall e :: multiset(Masks(es, labels))[e] == if e.cls in labels then multiset(es)[e] else 0
  {
    if labels != [] {
      var rest := labels[1..];
      IncreasingTail(labels);
      MasksSpec(es, rest);
      WithLabelSpec(es, labels[0]);
      forall e ensures multiset(Masks(es, labels))[e] == if e.cls in labels then multiset(es)[e] else 0 {
        assert e.cls in labels <==> e.cls == labels[0] || e.cls in rest;
      }
    }
  }

  /** The set `{0, ..., n - 1}`. */
  function Below(n: nat): (r: set<nat>)
    ensures |r| == n && forall k :: k in r <==> 0 <= k < n
  {
    if n == 0 then {}
    else
      var b := Below(n - 1);
      assert n - 1 !in b;
      b + {n - 1}
  }

  /** The greedy clusters of `bs` hold `|bs|` indices in all. */
  lemma FlatClustersLength(bs: seq<Box>, thr: real)
    ensures |Flat(Clusters(bs, thr))| == |bs|
  {
    ClustersPartition(bs, thr);
    NoDupBelow(Flat(Clusters(bs, thr)), |bs|);
  }

  /** A duplicate-free list of exactly the indices below `n` has length `n`. */
  lemma NoDupBelow(s: seq<nat>, n: nat)
    requires NoDup(s) && forall k :: k in s <==> 0 <= k < n
    ensures |s| == n
  {
    NoDupCard(s);
    var fs := set x: nat | x in s;
    assert |fs| == |s|;
    var b := Below(n);
    forall x: nat ensures x in fs <==> x in b {
      assert x in b <==> 0 <= x < n;
    }
    assert fs == b;
  }

  /** The number of cluster memberships over the clusterings of the masks of `labels`. */
  function ClusteredCount(es: seq<Entry>, labels: seq<int>, thr: real): nat
  {
    if labels == [] then 0
    else |Flat(Clusters(BoxesOf(WithLabel(es, labels[0])), thr))| + ClusteredCount(es, labels[1..], thr)
  }

  lemma {:induction false} ClusteredCountMasks(es: seq<Entry>, labels: seq<int>, thr: real)
    ensures ClusteredCount(es, labels, thr) == |Masks(es, labels)|
  {
    if labels != [] {
      ClusteredCountMasks(es, labels[1..], thr);
      FlatClustersLength(BoxesOf(WithLabel(es, labels[0])), thr);
    }
  }

  /** Each entry lies in the mask of its own label, which `np.unique` lists, and in no other. */
  lemma MaskOfOwnLabel(es: seq<Entry>)
    ensures forall k :: 0 <= k < |es| ==> es[k].cls in Unique(LabelsOf(es)) && es[k] in WithLabel(es, es[k].cls)
    ensures forall k, l :: 0 <= k < |es| && l != es[k].cls ==> es[k] !in WithLabel(es, l)
  {
    forall k | 0 <= k < |es| ensures es[k].cls in Unique(LabelsOf(es)) && es[k] in WithLabel(es, es[k].cls) {
      assert LabelsOf(es)[k] == es[k].cls;
      WithLabelSpec(es, es[k].cls);
    }
    forall k, l | 0 <= k < |es| && l != es[k].cls ensures es[k] !in WithLabel(es, l) {
      WithLabelSpec(es, l);
      assert multiset(WithLabel(es, l))[es[k]] == 0;
    }
  }

  /** The masks of the unique labels hold every entry as often as it occurs. */
  lemma MasksCover(es: seq<Entry>)
    ensures multiset(Masks(es, Unique(LabelsOf(es)))) == multiset(es)
    ensures |Masks(es, Unique(LabelsOf(es)))| == |es|
  {
    var ls := Unique(LabelsOf(es));
    var m := Masks(es, ls);
    MasksSpec(es, ls);
    forall e ensures multiset(m)[e] == multiset(es)[e] {
      if e in multiset(es) {
        var k :| 0 <= k < |es| && es[k] == e;
        assert LabelsOf(es)[k] == e.cls;
      }
    }
    assert multiset(m) == multiset(es);
    assert |m| == |multiset(m)| == |multiset(es)| == |es|;
  }

  /** The label loop over `np.unique(all_labels)` places every surviving box in exactly one
      cluster: each survivor lies in the mask of its own label and of no other, the masks
      together hold every survivor as often as it occurs, and the clusterings of the masks
      (each a partition of its mask, by ClustersPartition) have exactly as many memberships
      as there are survivors. */
  lemma FusionPartition(bl: seq<seq<Box>>, sl: seq<seq<real>>, ll: seq<seq<int>>, iouThr: real, skipThr: real)
    ensures var es := AllSurvivors(bl, sl, ll, skipThr);
      var ls := Unique(LabelsOf(es));
      && (forall k :: 0 <= k < |es| ==> es[k].cls in ls && es[k] in WithLabel(es, es[k].cls))
      && (forall k, l :: 0 <= k < |es| && l != es[k].cls ==> es[k] !in WithLabel(es, l))
      && multiset(Masks(es, ls)) == multiset(es)
      && ClusteredCount(es, ls, iouThr) == |es|
  {
    var es := AllSurvivors(bl, sl, ll, skipThr);
    MaskOfOwnLabel(es);
    MasksCover(es);
    ClusteredCountMasks(es, Unique(LabelsOf(es)), iouThr);
  }

  /** A box in the unit square with positive width and height, scored 1.0. */
  predicate UnitEntry(e: Entry)
  {
    e.box.InUnitSquare() && e.box.Proper() && e.score == 1.0
  }

  lemma MergeUnit(cb: seq<Box>, cs: seq<real>, cls: int)
    requires |cb| == |cs| > 0
    requires forall p :: 0 <= p < |cb| ==> cb[p].InUnitSquare() && cb[p].Proper() && cs[p] == 1.0
    ensures AllPositive(cs) && UnitEntry(MergeCluster(cb, cs, cls))
  {
    forall a | 0 <= a < 4 ensures 0.0 <= MergeCluster(cb, cs, cls).box.At(a) <= 1.0 {
      MergeWithin(cb, cs, cls, a, 0.0, 1.0);
    }
    var b := MergeCluster(cb, cs, cls).box;
    assert b.At(0) == b.x1 && b.At(1) == b.y1 && b.At(2) == b.x2 && b.At(3) == b.y2;
    MergeProper(cb, cs, cls);
    MergeScore(cb, cs, cls, 1.0, 1.0);
  }

  lemma FusedLabelUnit(bs: seq<Box>, ss: seq<real>, cls: int, thr: real)
    requires |bs| == |ss|
    requires forall k :: 0 <= k < |bs| ==> bs[k].InUnitSquare() && bs[k].Proper() && ss[k] == 1.0
    ensures AllPositive(ss)
    ensures forall k :: 0 <= k < |FusedLabel(bs, ss, cls, thr)| ==> UnitEntry(FusedLabel(bs, ss, cls, thr)[k])
  {
    ClustersPartition(bs, thr);
    var cs := Clusters(bs, thr);
    MergeAllAt(bs, ss, cs, cls);
    forall k | 0 <= k < |cs| ensures UnitEntry(MergeAt(bs, ss, cs[k], cls)) {
      MergeUnit(Pick(bs, cs[k]), Pick(ss, cs[k]), cls);
    }
  }

  lemma {:induction false} FuseLabelsUnit(es: seq<Entry>, ls: seq<int>, thr: real)
    requires forall k :: 0 <= k < |es| ==> UnitEntry(es[k])
    ensures PositiveScores(es)
    ensures forall k :: 0 <= k < |FuseLabels(es, ls, thr)| ==> UnitEntry(FuseLabels(es, ls, thr)[k])
  {
    if ls != [] {
      var group := WithLabel(es, ls[0]);
      forall k | 0 <= k < |group| ensures UnitEntry(group[k]) {
        var j :| 0 <= j < |es| && es[j] == group[k];
      }
      FusedLabelUnit(BoxesOf(group), ScoresOf(group), ls[0], thr);
      FuseLabelsUnit(es, ls[1..], thr);
      var block := FusedLabel(BoxesOf(group), ScoresOf(group), ls[0], thr);
      var rest := FuseLabels(es, ls[1..], thr);
      forall k | 0 <= k < |block + rest| ensures UnitEntry((block + rest)[k]) {
        if k >= |block| { assert (block + rest)[k] == rest[k - |block|]; }
      }
    }
  }

  lemma {:induction false} KeptUnit(boxes: seq<Box>, scores: seq<real>, labels: seq<int>, skipThr: real, n: nat)
    requires n <= |boxes| && n <= |scores| && n <= |labels|
    requires forall q :: 0 <= q < n ==> boxes[q].InUnitSquare() && boxes[q].Proper() && scores[q] == 1.0
    ensures forall k :: 0 <= k < |Kept(boxes, scores, labels, skipThr, n)| ==> UnitEntry(Kept(boxes, scores, labels, skipThr, n)[k])
  {
    if n > 0 {
      KeptUnit(boxes, scores, labels, skipThr, n - 1);
    }
  }

  /** Boxes that all lie in the unit square with positive size and score 1.0 survive as such. */
  lemma {:induction false} SurvivorsUnit(bl: seq<seq<Box>>, sl: seq<seq<real>>, ll: seq<seq<int>>, skipThr: real, n: nat)
    requires n <= Min3(|bl|, |sl|, |ll|)
    requires forall p, q :: 0 <= p < n && 0 <= q < |bl[p]| && q < |sl[p]| ==>
      bl[p][q].InUnitSquare() && bl[p][q].Proper() && sl[p][q] == 1.0
    ensures forall k :: 0 <= k < |Survivors(bl, sl, ll, skipThr, n)| ==> UnitEntry(Survivors(bl, sl, ll, skipThr, n)[k])
  {
    if n > 0 {
      SurvivorsUnit(bl, sl, ll, skipThr, n - 1);
      KeptUnit(bl[n - 1], sl[n - 1], ll[n - 1], skipThr, RowCount(bl, sl, ll, n - 1));
      var a := Survivors(bl, sl, ll, skipThr, n - 1);
      var b := Kept(bl[n - 1], sl[n - 1], ll[n - 1], skipThr, RowCount(bl, sl, ll, n - 1));
      forall k | 0 <= k < |a + b| ensures UnitEntry((a + b)[k]) {
        if k >= |a| { assert (a + b)[k] == b[k - |a|]; }
      }
    }
  }

  /** When every surviving box lies in the unit square with positive width and height and is
      scored 1.0 (as the dataset converter prepares them), so is every fused box. */
  lemma FusionUnit(bl: seq<seq<Box>>, sl: seq<seq<real>>, ll: seq<seq<int>>, iouThr: real, skipThr: real)
    requires skipThr >= 0.0
    requires forall k :: 0 <= k < |AllSurvivors(bl, sl, ll, skipThr)| ==> UnitEntry(AllSurvivors(bl, sl, ll, skipThr)[k])
    ensures forall k :: 0 <= k < |Fuse(bl, sl, ll, iouThr, skipThr)| ==> UnitEntry(Fuse(bl, sl, ll, iouThr, skipThr)[k])
  {
    var es := AllSurvivors(bl, sl, ll, skipThr);
    if |bl| > 0 && |es| > 0 {
      FuseLabelsUnit(es, Unique(LabelsOf(es)), iouThr);
    }
  }
}
