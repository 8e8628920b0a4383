/** The detection API of final/backend/main.py: the raw YOLO boxes of every result are
    filtered by confidence, given class names, pixel and image-relative boxes, and sorted by
    confidence, highest first (`format_detections`); `predict` summarises the top detection
    and `batch_predict` builds one result per uploaded file. The detector, the image decoder,
    Python's `round` and the `.1%` formatting are parameters. */
module Detections {
  import opened Wrappers
  import opened Boxes
  import opened Sorting

  /** The 14 detector classes, by class id. */
  const CLASS_NAMES: seq<string> := [
    "Aortic enlargement", "Atelectasis", "Calcification", "Cardiomegaly",
    "Consolidation", "ILD", "Infiltration", "Lung Opacity",
    "Nodule/Mass", "Other lesion", "Pleural effusion", "Pleural thickening",
    "Pneumothorax", "Pulmonary fibrosis"
  ]

  /** The default `conf_threshold` of `format_detections`. */
  const CONF_THRESHOLD: real := 0.25

  const NO_ABNORMALITIES: string := "No abnormalities detected"

  /** Python's `round(x, ndigits)` on floats. */
  type Rounding = (real, nat) -> real

  /** One raw detector box: `boxes.conf[i]`, `boxes.cls[i]` and `boxes.xyxy[i]`. */
  datatype RawBox = RawBox(conf: real, cls: nat, xyxy: Box)

  /** One detector result: its boxes (None when the result has none) and `orig_shape`. */
  datatype YoloResult = YoloResult(boxes: Option<seq<RawBox>>, origH: real, origW: real)

  /** One formatted detection. */
  datatype Detection = Detection(classId: nat, className: string, confidence: real,
                                 bbox: Box, bboxNormalized: Box)

  // ---------------------------------------------------------------------------
  // Class names
  // ---------------------------------------------------------------------------

  function Digit(d: nat): char
    requires d < 10
  {
    "0123456789"[d]
  }

  predicate AllDigits(s: string)
  {
    forall k :: 0 <= k < |s| ==> '0' <= s[k] <= '9'
  }

  /** `str(n)` for a natural number: its decimal digits, most significant first. */
  function NatToString(n: nat): (s: string)
    ensures |s| > 0 && AllDigits(s)
    decreases n
  {
    if n < 10 then [Digit(n)] else NatToString(n / 10) + [Digit(n % 10)]
  }

  /** The number a string of decimal digits denotes (`int(s)`). */
  function DigitsValue(s: string): nat
    requires AllDigits(s)
  {
    if s == [] then 0 else DigitsValue(s[..|s| - 1]) * 10 + (s[|s| - 1] as int - '0' as int)
  }

  /** Reading the digits of `n` back gives `n`. */
  lemma {:induction false} NatToStringRoundTrip(n: nat)
    ensures DigitsValue(NatToString(n)) == n
    decreases n
  {
    if n >= 10 {
      NatToStringRoundTrip(n / 10);
      var s := NatToString(n);
      assert s[..|s| - 1] == NatToString(n / 10);
    }
  }

  lemma NatToStringInjective(a: nat, b: nat)
    ensures NatToString(a) == NatToString(b) ==> a == b
  {
    NatToStringRoundTrip(a);
    NatToStringRoundTrip(b);
  }

  /** The name of class `id`: its entry of CLASS_NAMES, or `class_<id>` past the table. */
  function ClassName(id: nat): string
  {
    if id < |CLASS_NAMES| then CLASS_NAMES[id] else "class_" + NatToString(id)
  }

  /** No two class ids share a name: the table has no duplicates, no table entry starts
      with `class_`, and distinct ids have distinct decimal forms. */
  lemma ClassNameInjective(a: nat, b: nat)
    ensures ClassName(a) == ClassName(b) ==> a == b
  {
    if ClassName(a) == ClassName(b) {
      if a < |CLASS_NAMES| && b < |CLASS_NAMES| {
        assert CLASS_NAMES[a] == CLASS_NAMES[b];
        TableDistinct(a, b);
      } else if a < |CLASS_NAMES| {
        assert ClassName(b)[0] == 'c';
        TableCapitalised(a);
      } else if b < |CLASS_NAMES| {
        assert ClassName(a)[0] == 'c';
        TableCapitalised(b);
      } else {
        var p := "class_";
        assert (p + NatToString(a))[6..] == NatToString(a);
        assert (p + NatToString(b))[6..] == NatToString(b);
        NatToStringInjective(a, b);
      }
    }
  }

  /** The table entries differ already in their length and first two letters. */
  lemma TableDistinct(a: nat, b: nat)
    requires a < |CLASS_NAMES| && b < |CLASS_NAMES| && CLASS_NAMES[a] == CLASS_NAMES[b]
    ensures a == b
  {
    var sig := seq(|CLASS_NAMES|, k requires 0 <= k < |CLASS_NAMES| =>
                   (|CLASS_NAMES[k]|, CLASS_NAMES[k][0], CLASS_NAMES[k][1]));
    assert sig[a] == sig[b];
    assert sig[0] == (18, 'A', 'o') && sig[1] == (11, 'A', 't') && sig[2] == (13, 'C', 'a');
    assert sig[3] == (12, 'C', 'a') && sig[4] == (13, 'C', 'o') && sig[5] == (3, 'I', 'L');
    assert sig[6] == (12, 'I', 'n') && sig[7] == (12, 'L', 'u') && sig[8] == (11, 'N', 'o');
    assert sig[9] == (12, 'O', 't') && sig[10] == (16, 'P', 'l') && sig[11] == (18, 'P', 'l');
    assert sig[12] == (12, 'P', 'n') && sig[13] == (18, 'P', 'u');
  }

  lemma TableCapitalised(a: nat)
    requires a < |CLASS_NAMES|
    ensures |CLASS_NAMES[a]| > 0 && CLASS_NAMES[a][0] != 'c'
  {
  }

  // ---------------------------------------------------------------------------
  // format_detections (lines 45-83)
  // ---------------------------------------------------------------------------

  /** The corners divided by the image width (x) and height (y). */
  function Normalized(b: Box, w: real, h: real): Box
    requires w > 0.0 && h > 0.0
  {
    Box(b.x1 / w, b.y1 / h, b.x2 / w, b.y2 / h)
  }

  /** Every corner rounded to `digits` decimals. */
  function Rounded(b: Box, round: Rounding, digits: nat): Box
  {
    Box(round(b.x1, digits), round(b.y1, digits), round(b.x2, digits), round(b.y2, digits))
  }

  /** Scaling the normalised corners back by the image size gives the pixel corners, and a
      box inside the image normalises into the unit square. */
  lemma NormalizedScale(b: Box, w: real, h: real)
    requires w > 0.0 && h > 0.0
    ensures var n := Normalized(b, w, h);
      n.x1 * w == b.x1 && n.x2 * w == b.x2 && n.y1 * h == b.y1 && n.y2 * h == b.y2
    ensures 0.0 <= b.x1 <= w && 0.0 <= b.x2 <= w && 0.0 <= b.y1 <= h && 0.0 <= b.y2 <= h
      ==> Normalized(b, w, h).InUnitSquare()
  {
    var n := Normalized(b, w, h);
    assert n.x1 * w == b.x1 && n.x2 * w == b.x2;
    assert n.y1 * h == b.y1 && n.y2 * h == b.y2;
    if 0.0 <= b.x1 <= w && 0.0 <= b.x2 <= w && 0.0 <= b.y1 <= h && 0.0 <= b.y2 <= h {
      UnitShare(b.x1, w);
      UnitShare(b.x2, w);
      UnitShare(b.y1, h);
      UnitShare(b.y2, h);
    }
  }

  lemma UnitShare(a: real, s: real)
    requires 0.0 <= a <= s && s > 0.0
    ensures 0.0 <= a / s <= 1.0
  {
    assert a / s * s == a;
  }

  /** The dictionary built for one kept box of an image `w` wide and `h` high. */
  function ToDetection(b: RawBox, w: real, h: real, round: Rounding): Detection
    requires w > 0.0 && h > 0.0
  {
    Detection(b.cls, ClassName(b.cls), round(b.conf, 4), Rounded(b.xyxy, round, 1),
              Rounded(Normalized(b.xyxy, w, h), round, 4))
  }

  /** A result whose boxes are divided by its size has a positive size. */
  predicate Sized(r: YoloResult)
  {
    r.boxes.Some? && |r.boxes.value| > 0 ==> r.origW > 0.0 && r.origH > 0.0
  }

  predicate AllSized(results: seq<YoloResult>)
  {
    forall p :: 0 <= p < |results| ==> Sized(results[p])
  }

  /** The detections of the boxes scored at least `thr`, in box order. */
  function FromBoxes(bs: seq<RawBox>, w: real, h: real, thr: real, round: Rounding): seq<Detection>
    requires w > 0.0 && h > 0.0
  {
    if bs == [] then []
    else
      var last := bs[|bs| - 1];
      FromBoxes(bs[..|bs| - 1], w, h, thr, round) + (if last.conf >= thr then [ToDetection(last, w, h, round)] else [])
  }

  /** The detections of one result; a result without boxes gives none. */
  function FromResult(r: YoloResult, thr: real, round: Rounding): seq<Detection>
    requires Sized(r)
  {
    if r.boxes.None? || |r.boxes.value| == 0 then [] else FromBoxes(r.boxes.value, r.origW, r.origH, thr, round)
  }

  /** The detections of all results in order, before sorting. */
  function Collected(results: seq<YoloResult>, thr: real, round: Rounding): seq<Detection>
    requires AllSized(results)
  {
    if results == [] then []
    else Collected(results[..|results| - 1], thr, round) + FromResult(results[|results| - 1], thr, round)
  }

  function ConfidenceOf(d: Detection): real
  {
    d.confidence
  }

  /** What `format_detections` returns: the collected detections sorted by their (rounded)
      confidence, highest first, by Python's stable sort. */
  function Formatted(results: seq<YoloResult>, thr: real, round: Rounding): seq<Detection>
    requires AllSized(results)
  {
    SortDesc(Collected(results, thr, round), ConfidenceOf)
  }

  /** A kept box: box `q` of result `p` exists and scores at least `thr`. */
  predicate KeptAt(results: seq<YoloResult>, thr: real, p: int, q: int)
  {
    && 0 <= p < |results| && results[p].boxes.Some?
    && 0 <= q < |results[p].boxes.value| && results[p].boxes.value[q].conf >= thr
  }

  /** Every detection kept from the boxes `bs` is built from one of them that scores at
      least `thr`. */
  lemma {:induction false} FromBoxesSound(bs: seq<RawBox>, w: real, h: real, thr: real, round: Rounding)
    requires w > 0.0 && h > 0.0
    ensures forall d :: d in FromBoxes(bs, w, h, thr, round) ==>
      exists q :: 0 <= q < |bs| && bs[q].conf >= thr && d == ToDetection(bs[q], w, h, round)
  {
    if bs != [] {
      var init := bs[..|bs| - 1];
      FromBoxesSound(init, w, h, thr, round);
      forall d | d in FromBoxes(init, w, h, thr, round)
        ensures exists q :: 0 <= q < |bs| && bs[q].conf >= thr && d == ToDetection(bs[q], w, h, round)
      {
        var q :| 0 <= q < |init| && init[q].conf >= thr && d == ToDetection(init[q], w, h, round);
        assert bs[q] == init[q];
      }
    }
  }

  /** Every box of `bs` scoring at least `thr` gives a detection. */
  lemma {:induction false} FromBoxesComplete(bs: seq<RawBox>, w: real, h: real, thr: real, round: Rounding)
    requires w > 0.0 && h > 0.0
    ensures forall q :: 0 <= q < |bs| && bs[q].conf >= thr ==> ToDetection(bs[q], w, h, round) in FromBoxes(bs, w, h, thr, round)
  {
    if bs != [] {
      var init := bs[..|bs| - 1];
      FromBoxesComplete(init, w, h, thr, round);
      forall q | 0 <= q < |init| ensures bs[q] == init[q] { }
    }
  }

  /** Every collected detection is built, with the size of its own result, from a box scored
      at least `thr`. */
  lemma {:induction false} CollectedSound(results: seq<YoloResult>, thr: real, round: Rounding)
    requires AllSized(results)
    ensures forall d :: d in Collected(results, thr, round) ==>
      exists p, q :: KeptAt(results, thr, p, q) &&
        d == ToDetection(results[p].boxes.value[q], results[p].origW, results[p].origH, round)
  {
    if results != [] {
      var init, r := results[..|results| - 1], results[|results| - 1];
      var p0 := |init|;
      assert forall p :: 0 <= p < |init| ==> init[p] == results[p];
      CollectedSound(init, thr, round);
      assert Sized(results[p0]);
      forall d | d in Collected(results, thr, round)
        ensures exists p, q ::
                  KeptAt(results, thr, p, q) &&
                  d == ToDetection(results[p].boxes.value[q], results[p].origW, results[p].origH, round)
      {
        if d in Collected(init, thr, round) {
          var p, q :| KeptAt(init, thr, p, q) &&
            d == ToDetection(init[p].boxes.value[q], init[p].origW, init[p].origH, round);
          assert KeptAt(results, thr, p, q);
        } else {
          FromBoxesSound(r.boxes.value, r.origW, r.origH, thr, round);
          var q :| 0 <= q < |r.boxes.value| && r.boxes.value[q].conf >= thr &&
            d == ToDetection(r.boxes.value[q], r.origW, r.origH, round);
          assert KeptAt(results, thr, p0, q);
        }
      }
    }
  }

  /** Every box scored at least `thr` gives a collected detection. */
  lemma {:induction false} CollectedComplete(results: seq<YoloResult>, thr: real, round: Rounding)
    requires AllSized(results)
    ensures forall p, q :: KeptAt(results, thr, p, q) ==>
      ToDetection(results[p].boxes.value[q], results[p].origW, results[p].origH, round) in Collected(results, thr, round)
  {
    if results != [] {
      var init, r := results[..|results| - 1], results[|results| - 1];
      var p0 := |init|;
      assert forall p :: 0 <= p < |init| ==> init[p] == results[p];
      CollectedComplete(init, thr, round);
      assert Sized(results[p0]);
      forall p, q | KeptAt(results, thr, p, q)
        ensures ToDetection(results[p].boxes.value[q], results[p].origW, results[p].origH, round) in Collected(results, thr, round)
      {
        if p < p0 {
          assert KeptAt(init, thr, p, q);
        } else {
          FromBoxesComplete(r.boxes.value, r.origW, r.origH, thr, round);
        }
      }
    }
  }

  /** The three promises of the final sort: highest confidence first, the same detections
      with the same multiplicities, and detections of equal confidence in their input order. */
  lemma FormattedOrder(results: seq<YoloResult>, thr: real, round: Rounding, k: real)
    requires AllSized(results)
    ensures SortedDesc(Formatted(results, thr, round), ConfidenceOf)
    ensures multiset(Formatted(results, thr, round)) == multiset(Collected(results, thr, round))
    ensures WithKey(Formatted(results, thr, round), ConfidenceOf, k) == WithKey(Collected(results, thr, round), ConfidenceOf, k)
  {
    var c := Collected(results, thr, round);
    SortDescSorted(c, ConfidenceOf);
    SortDescPermutation(c, ConfidenceOf);
    SortDescStable(c, ConfidenceOf, k);
  }

  /** A detection is returned exactly when it is built from a box scored at least `thr`. */
  lemma FormattedMembers(results: seq<YoloResult>, thr: real, round: Rounding)
    requires AllSized(results)
    ensures forall d :: d in Formatted(results, thr, round) <==>
      exists p, q :: KeptAt(results, thr, p, q) &&
        d == ToDetection(results[p].boxes.value[q], results[p].origW, results[p].origH, round)
  {
    var c, f := Collected(results, thr, round), Formatted(results, thr, round);
    FormattedOrder(results, thr, round, 0.0);
    CollectedSound(results, thr, round);
    CollectedComplete(results, thr, round);
    forall d ensures d in f <==> d in c {
      assert d in multiset(f) <==> d in multiset(c);
    }
  }

  /** Results without boxes, or none at all, give no detections. */
  lemma {:induction false} CollectedEmpty(results: seq<YoloResult>, thr: real, round: Rounding)
    requires forall p :: 0 <= p < |results| ==> results[p].boxes.None? || |results[p].boxes.value| == 0
    ensures AllSized(results) && Collected(results, thr, round) == []
  {
    if results != [] {
      var init := results[..|results| - 1];
      assert forall p :: 0 <= p < |init| ==> init[p] == results[p];
      CollectedEmpty(init, thr, round);
    }
  }

  /** The loops and the sort of lines 47-83. */
  method FormatDetections(results: seq<YoloResult>, thr: real, round: Rounding) returns (detections: seq<Detection>)
    requires AllSized(results)
    ensures detections == Formatted(results, thr, round)
  {
    detections := [];
    var p := 0;
    while p < |results|
      invariant 0 <= p <= |results|
      invariant detections == Collected(results[..p], thr, round)
    {
      var r := results[p];
      assert results[..p + 1][..p] == results[..p] && results[..p + 1][p] == r;
      assert Sized(r);
      if r.boxes.Some? && |r.boxes.value| > 0 {
        var bs, w, h := r.boxes.value, r.origW, r.origH;
        ghost var prefix := detections;
        var q := 0;
        while q < |bs|
          invariant 0 <= q <= |bs|
          invariant detections == prefix + FromBoxes(bs[..q], w, h, thr, round)
        {
          assert bs[..q + 1][..q] == bs[..q];
          if bs[q].conf >= thr {
            detections := detections + [ToDetection(bs[q], w, h, round)];
          }
          q := q + 1;
        }
        assert bs[..q] == bs;
      }
      p := p + 1;
    }
    assert results[..p] == results;
    detections := SortDesc(detections, ConfidenceOf);
  }

  // ---------------------------------------------------------------------------
  // predict (lines 139-144) and batch_predict (lines 156-192)
  // ---------------------------------------------------------------------------

  /** The summary line of `predict`: the first detection's name and its confidence formatted
      by `percent` (the `.1%` format), or NO_ABNORMALITIES. */
  function Summary(ds: seq<Detection>, percent: real -> string): string
  {
    if ds == [] then NO_ABNORMALITIES else ds[0].className + " (" + percent(ds[0].confidence) + " confidence)"
  }

  /** The summary is NO_ABNORMALITIES exactly for no detections; otherwise it starts with the
      first detection's class name and ends with a closing parenthesis. */
  lemma SummaryShape(ds: seq<Detection>, percent: real -> string)
    ensures Summary(ds, percent) == NO_ABNORMALITIES <==> ds == []
    ensures ds != [] ==>
      && Summary(ds, percent)[..|ds[0].className|] == ds[0].className
      && Summary(ds, percent)[|Summary(ds, percent)| - 1] == ')'
  {
    if ds != [] {
      var tail := " (" + percent(ds[0].confidence) + " confidence)";
      assert Summary(ds, percent) == ds[0].className + tail;
      assert tail[|tail| - 1] == ')';
      assert NO_ABNORMALITIES[|NO_ABNORMALITIES| - 1] == 'd';
    }
  }

  /** The summary of the formatted detections reports one of highest confidence, and it
      reports no abnormality exactly when no box was kept. */
  lemma SummaryOfTop(results: seq<YoloResult>, thr: real, round: Rounding, percent: real -> string)
    requires AllSized(results)
    ensures var ds := Formatted(results, thr, round);
      && |ds| == |Collected(results, thr, round)|
      && (Summary(ds, percent) == NO_ABNORMALITIES <==> Collected(results, thr, round) == [])
      && (ds != [] ==>
            && Summary(ds, percent)[..|ds[0].className|] == ds[0].className
            && forall d :: d in ds ==> d.confidence <= ds[0].confidence)
  {
    var c := Collected(results, thr, round);
    var ds := Formatted(results, thr, round);
    FormattedOrder(results, thr, round, 0.0);
    assert |ds| == |multiset(ds)| == |multiset(c)| == |c|;
    SummaryShape(ds, percent);
    if ds != [] {
      forall d | d in ds ensures d.confidence <= ds[0].confidence {
        var k :| 0 <= k < |ds| && ds[k] == d;
        if k > 0 {
          assert ConfidenceOf(ds[0]) >= ConfidenceOf(ds[k]);
        }
      }
    }
  }

  /** An uploaded file: its name and the width and height of the decoded image. */
  datatype Upload = Upload(filename: string, width: nat, height: nat)

  /** One entry of the `results` list of `batch_predict` (timing left out). */
  datatype FileResult = FileResult(filename: string, numDetections: nat, detections: seq<Detection>,
                                   width: nat, height: nat)

  datatype BatchResponse = BatchResponse(totalImages: nat, results: seq<FileResult>)

  /** Every image the detector sees yields results whose boxes can be normalised. */
  predicate Detectable(files: seq<Upload>, detect: Upload -> seq<YoloResult>)
  {
    forall i :: 0 <= i < |files| ==> AllSized(detect(files[i]))
  }

  /** The loop of lines 160-184: one result per file, in file order. */
  method BatchPredict(files: seq<Upload>, detect: Upload -> seq<YoloResult>, round: Rounding)
    returns (resp: BatchResponse)
    requires Detectable(files, detect)
    ensures resp.totalImages == |resp.results| == |files|
    ensures forall i :: 0 <= i < |files| ==>
      var r := resp.results[i];
      && r.filename == files[i].filename
      && r.detections == Formatted(detect(files[i]), CONF_THRESHOLD, round)
      && r.numDetections == |r.detections|
      && r.width == files[i].width && r.height == files[i].height
  {
    var resultsList: seq<FileResult> := [];
    var i := 0;
    while i < |files|
      invariant 0 <= i <= |files| && |resultsList| == i
      invariant forall j :: 0 <= j < i ==>
        var r := resultsList[j];
        && r.filename == files[j].filename
        && r.detections == Formatted(detect(files[j]), CONF_THRESHOLD, round)
        && r.numDetections == |r.detections|
        && r.width == files[j].width && r.height == files[j].height
    {
      var file := files[i];
      var detections := FormatDetections(detect(file), CONF_THRESHOLD, round);
      resultsList := resultsList + [FileResult(file.filename, |detections|, detections, file.width, file.height)];
      i := i + 1;
    }
    resp := BatchResponse(|resultsList|, resultsList);
  }
}
