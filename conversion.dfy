/** The dataset converter (`convert_dataset`): radiologist annotation rows are split into
    finding / no-finding images, grouped per image and per radiologist, normalised to the unit
    square, fused, written as YOLO centre/size labels, and the images are split into train and
    validation sets. */
module Conversion {
  import opened Wrappers
  import opened SeqUtil
  import opened Boxes
  import opened Fusion

  /** Class 14 is "No finding": such rows carry no box. */
  const NO_FINDING_CLASS: int := 14

  /** One row of the annotation table. `bbox` is None when any of the four corner columns is
      empty (NaN). */
  datatype Row = Row(imageId: string, radId: string, classId: int, bbox: Option<Box>,
                     rawWidth: real, rawHeight: real, scaleX: real, scaleY: real)

  /** A finding row that has a box, with its display size `raw * scale` (lines 201-206). */
  datatype Annotation = Annotation(imageId: string, radId: string, classId: int, box: Box,
                                   displayW: real, displayH: real)

  function ImageOf(a: Annotation): string { a.imageId }
  function RadOf(a: Annotation): string { a.radId }

  // ---------------------------------------------------------------------------
  // Finding and no-finding images (lines 174-185)
  // ---------------------------------------------------------------------------

  /** Ids of images with at least one row of a real finding. */
  function FindingIds(rows: seq<Row>): set<string>
  {
    set r | r in rows && r.classId != NO_FINDING_CLASS :: r.imageId
  }

  /** Ids of images with at least one "No finding" row. */
  function NoFindingIds(rows: seq<Row>): set<string>
  {
    set r | r in rows && r.classId == NO_FINDING_CLASS :: r.imageId
  }

  /** Images that some radiologist marked "No finding" and none marked with a finding. */
  function PureNoFinding(rows: seq<Row>): (r: set<string>)
    ensures forall id :: id in r ==> id in NoFindingIds(rows) && id !in FindingIds(rows)
  {
    NoFindingIds(rows) - FindingIds(rows)
  }

  /** The finding rows with all four coordinates present, in table order. */
  function Annotated(rows: seq<Row>): (r: seq<Annotation>)
    ensures |r| <= |rows|
    ensures forall k :: 0 <= k < |r| ==> r[k].classId != NO_FINDING_CLASS && r[k].imageId in FindingIds(rows)
  {
    if rows == [] then []
    else
      var init := rows[..|rows| - 1];
      var row := rows[|rows| - 1];
      var rest := Annotated(init);
      assert forall k :: 0 <= k < |rest| ==> rest[k].imageId in FindingIds(rows) by {
        assert FindingIds(init) <= FindingIds(rows);
      }
      rest + (if row.classId != NO_FINDING_CLASS && row.bbox.Some? then
          [Annotation(row.imageId, row.radId, row.classId, row.bbox.value,
                      row.rawWidth * row.scaleX, row.rawHeight * row.scaleY)]
        else [])
  }

  /** A kept annotation never belongs to a pure no-finding image. */
  lemma AnnotatedNotPure(rows: seq<Row>)
    ensures forall k :: 0 <= k < |Annotated(rows)| ==> Annotated(rows)[k].imageId !in PureNoFinding(rows)
  {
  }

  // ---------------------------------------------------------------------------
  // Grouping into dictionaries (lines 198-206, 218-220)
  // ---------------------------------------------------------------------------

  /** The distinct keys in first-appearance order: the key order of a dict filled by the rows. */
  function KeysInOrder(xs: seq<Annotation>, key: Annotation -> string): (r: seq<string>)
    ensures NoDup(r)
    ensures forall k :: k in r <==> exists i :: 0 <= i < |xs| && key(xs[i]) == k

  {
    if xs == [] then []
    else
      var init := xs[..|xs| - 1];
      var rest := KeysInOrder(init, key);
      var k := key(xs[|xs| - 1]);
      assert forall i :: 0 <= i < |init| ==> init[i] == xs[i];
      if k in rest then rest
      else
        NoDupConcat(rest, [k]);
        rest + [k]
  }

  /** The rows with key `k`, in their order: what `groups[k].append(row)` accumulates. */
  function Group(xs: seq<Annotation>, key: Annotation -> string, k: string): (r: seq<Annotation>)
    ensures |r| <= |xs|
    ensures forall x :: x in r <==> x in xs && key(x) == k
  {
    if xs == [] then []
    else
      var init := xs[..|xs| - 1];
      assert xs == init + [xs[|xs| - 1]];
      Group(init, key, k) + (if key(xs[|xs| - 1]) == k then [xs[|xs| - 1]] else [])
  }

  /** Every key of the dictionary has a non-empty list. */
  lemma GroupNonEmpty(xs: seq<Annotation>, key: Annotation -> string, k: string)
    requires k in KeysInOrder(xs, key)
    ensures |Group(xs, key, k)| > 0
  {
    var i :| 0 <= i < |xs| && key(xs[i]) == k;
    assert xs[i] in Group(xs, key, k);
  }

  lemma GroupSnoc(xs: seq<Annotation>, x: Annotation, key: Annotation -> string, k: string)
    ensures Group(xs + [x], key, k) == Group(xs, key, k) + (if key(x) == k then [x] else [])
  {
    assert (xs + [x])[..|xs|] == xs;
  }

  lemma KeysSnoc(xs: seq<Annotation>, x: Annotation, key: Annotation -> string)
    ensures KeysInOrder(xs + [x], key) ==
      if key(x) in KeysInOrder(xs, key) then KeysInOrder(xs, key) else KeysInOrder(xs, key) + [key(x)]
  {
    assert (xs + [x])[..|xs|] == xs;
  }

  /** A key that is not in the dictionary yet has no rows so far. */
  lemma GroupAbsent(xs: seq<Annotation>, key: Annotation -> string, k: string)
    requires k !in KeysInOrder(xs, key)
    ensures Group(xs, key, k) == []
  {
  }

  /** The dictionary `groups[key(x)].append(x)` builds, one row at a time. */
  function GroupMap(xs: seq<Annotation>, key: Annotation -> string): map<string, seq<Annotation>>
  {
    if xs == [] then map[]
    else
      var m := GroupMap(xs[..|xs| - 1], key);
      var x := xs[|xs| - 1];
      m[key(x) := (if key(x) in m then m[key(x)] else []) + [x]]
  }

  /** The dictionary's keys are the rows' keys. */
  lemma {:induction false} GroupMapKeys(xs: seq<Annotation>, key: Annotation -> string)
    ensures forall k :: k in GroupMap(xs, key) <==> k in KeysInOrder(xs, key)
  {
    if xs != [] {
      var init := xs[..|xs| - 1];
      assert xs == init + [xs[|xs| - 1]];
      GroupMapKeys(init, key);
      KeysSnoc(init, xs[|xs| - 1], key);
    }
  }

  /** Each key's list holds exactly that key's rows, in order. */
  lemma {:induction false} GroupMapValues(xs: seq<Annotation>, key: Annotation -> string)
    ensures forall k :: k in GroupMap(xs, key) ==> GroupMap(xs, key)[k] == Group(xs, key, k)
  {
    if xs != [] {
      var init, x := xs[..|xs| - 1], xs[|xs| - 1];
      assert xs == init + [x];
      GroupMapValues(init, key);
      GroupMapKeys(init, key);
      forall k | k in GroupMap(xs, key) ensures GroupMap(xs, key)[k] == Group(xs, key, k) {
        GroupSnoc(init, x, key, k);
        if k == key(x) && k !in GroupMap(init, key) {
          GroupAbsent(init, key, k);
        }
      }
    }
  }

  /** The `defaultdict(list)` loop: keys in first-appearance order, each with its rows. */
  method GroupBy(xs: seq<Annotation>, key: Annotation -> string)
    returns (keys: seq<string>, groups: map<string, seq<Annotation>>)
    ensures keys == KeysInOrder(xs, key)
    ensures forall k :: k in groups <==> k in keys
    ensures forall k :: k in groups ==> groups[k] == Group(xs, key, k)
  {
    keys, groups := [], map[];
    var i := 0;
    while i < |xs|
      invariant 0 <= i <= |xs|
      invariant keys == KeysInOrder(xs[..i], key) && groups == GroupMap(xs[..i], key)
    {
      var x := xs[i];
      var k := key(x);
      assert xs[..i + 1][..i] == xs[..i];
      GroupMapKeys(xs[..i], key);
      if k !in groups {
        keys := keys + [k];
      }
      // a defaultdict entry starts as the empty list
      groups := groups[k := (if k in groups then groups[k] else []) + [x]];
      i := i + 1;
    }
    assert xs[..i] == xs;
    GroupMapKeys(xs, key);
    GroupMapValues(xs, key);
  }

  /** The display size of an image: that of its last row, since every row overwrites it. */
  function DisplayOf(g: seq<Annotation>): (real, real)
    requires |g| > 0
  {
    (g[|g| - 1].displayW, g[|g| - 1].displayH)
  }

  /** The dictionary `sizes[a.imageId] = (a.displayW, a.displayH)` builds. */
  function Displays(xs: seq<Annotation>): map<string, (real, real)>
  {
    if xs == [] then map[]
    else
      var a := xs[|xs| - 1];
      Displays(xs[..|xs| - 1])[a.imageId := (a.displayW, a.displayH)]
  }

  /** An image's display size is that of its last annotation. */
  lemma {:induction false} DisplaysLast(xs: seq<Annotation>)
    ensures forall k :: k in Displays(xs) <==> k in GroupMap(xs, ImageOf)
    ensures forall k :: k in GroupMap(xs, ImageOf) ==>
      |GroupMap(xs, ImageOf)[k]| > 0 && Displays(xs)[k] == DisplayOf(GroupMap(xs, ImageOf)[k])
  {
    if xs != [] {
      DisplaysLast(xs[..|xs| - 1]);
    }
  }

  /** The per-image loop of lines 201-206: `image_annotations` and `image_display_sizes`. */
  method GroupByImage(anns: seq<Annotation>)
    returns (ids: seq<string>, annotations: map<string, seq<Annotation>>, displaySizes: map<string, (real, real)>)
    ensures ids == KeysInOrder(anns, ImageOf)
    ensures forall k :: k in annotations <==> k in ids
    ensures forall k :: k in displaySizes <==> k in ids
    ensures forall k :: k in annotations ==>
      annotations[k] == Group(anns, ImageOf, k) && |annotations[k]| > 0 &&
      displaySizes[k] == DisplayOf(annotations[k])
  {
    ids, annotations, displaySizes := [], map[], map[];
    var i := 0;
    while i < |anns|
      invariant 0 <= i <= |anns|
      invariant ids == KeysInOrder(anns[..i], ImageOf) && annotations == GroupMap(anns[..i], ImageOf)
      invariant displaySizes == Displays(anns[..i])
    {
      var a := anns[i];
      var id := a.imageId;
      assert anns[..i + 1][..i] == anns[..i];
      GroupMapKeys(anns[..i], ImageOf);
      displaySizes := displaySizes[id := (a.displayW, a.displayH)];
      if id !in annotations {
        ids := ids + [id];
      }
      annotations := annotations[id := (if id in annotations then annotations[id] else []) + [a]];
      i := i + 1;
    }
    assert anns[..i] == anns;
    GroupMapKeys(anns, ImageOf);
    GroupMapValues(anns, ImageOf);
    DisplaysLast(anns);
  }

  // ---------------------------------------------------------------------------
  // Normalising one annotation (lines 231-248)
  // ---------------------------------------------------------------------------

  /** `max(0, min(1, x))` */
  function Clamp01(x: real): (r: real)
    ensures 0.0 <= r <= 1.0
    ensures 0.0 <= x <= 1.0 ==> r == x
    ensures x < 0.0 ==> r == 0.0
    ensures x > 1.0 ==> r == 1.0
  {
    Max(0.0, Min(1.0, x))
  }

  /** Clamping never reverses the order of two values. */
  lemma ClampMonotone(x: real, y: real)
    requires x <= y
    ensures Clamp01(x) <= Clamp01(y)
  {
  }

  /** The box divided by the display size, each corner clamped to [0, 1]. */
  function Normalized(b: Box, dispW: real, dispH: real): (r: Box)
    requires dispW > 0.0 && dispH > 0.0
    ensures r.InUnitSquare()
  {
    Box(Clamp01(b.x1 / dispW), Clamp01(b.y1 / dispH), Clamp01(b.x2 / dispW), Clamp01(b.y2 / dispH))
  }

  /** The normalised box, or None when it is degenerate (`x2 <= x1 or y2 <= y1`). */
  function NormalizeBox(b: Box, dispW: real, dispH: real): (r: Option<Box>)
    requires dispW > 0.0 && dispH > 0.0
    ensures r.Some? ==> r.value.InUnitSquare() && r.value.Proper()
  {
    var n := Normalized(b, dispW, dispH);
    if n.x2 <= n.x1 || n.y2 <= n.y1 then None else Some(n)
  }

  lemma DivMonotone(x: real, y: real, d: real)
    requires x <= y && d > 0.0
    ensures x / d <= y / d
  {
    assert y / d - x / d == (y - x) / d;
  }

  /** A box that is degenerate in display coordinates is always skipped, and a kept box had
      positive width and height to begin with. */
  lemma NormalizeKeepsOnlyProper(b: Box, dispW: real, dispH: real)
    requires dispW > 0.0 && dispH > 0.0
    ensures NormalizeBox(b, dispW, dispH).Some? ==> b.Proper()
  {
    if b.x2 <= b.x1 {
      DivMonotone(b.x2, b.x1, dispW);
      ClampMonotone(b.x2 / dispW, b.x1 / dispW);
    }
    if b.y2 <= b.y1 {
      DivMonotone(b.y2, b.y1, dispH);
      ClampMonotone(b.y2 / dispH, b.y1 / dispH);
    }
  }

  /** A proper box inside the display area is kept, and only rescaled: the clamps change nothing. */
  lemma NormalizeInterior(b: Box, dispW: real, dispH: real)
    requires dispW > 0.0 && dispH > 0.0
    requires Box(b.x1 / dispW, b.y1 / dispH, b.x2 / dispW, b.y2 / dispH).InUnitSquare()
    requires b.Proper()
    ensures NormalizeBox(b, dispW, dispH) == Some(Box(b.x1 / dispW, b.y1 / dispH, b.x2 / dispW, b.y2 / dispH))
  {
    assert b.x1 / dispW < b.x2 / dispW by {
      assert b.x2 / dispW - b.x1 / dispW == (b.x2 - b.x1) / dispW;
    }
    assert b.y1 / dispH < b.y2 / dispH by {
      assert b.y2 / dispH - b.y1 / dispH == (b.y2 - b.y1) / dispH;
    }
  }

  /** One radiologist's accepted boxes, each scored 1.0 and labelled with its class id. */
  function Accepted(anns: seq<Annotation>, dispW: real, dispH: real): (r: seq<Entry>)
    requires dispW > 0.0 && dispH > 0.0
    ensures |r| <= |anns|
    ensures forall k :: 0 <= k < |r| ==> UnitEntry(r[k])
  {
    if anns == [] then []
    else
      var rest := Accepted(anns[..|anns| - 1], dispW, dispH);
      var a := anns[|anns| - 1];
      match NormalizeBox(a.box, dispW, dispH)
      case None => rest
      case Some(b) => rest + [Entry(b, 1.0, a.classId)]
  }

  /** The non-empty per-radiologist lists, radiologists in first-appearance order (lines 226-253). */
  function RadEntries(anns: seq<Annotation>, dispW: real, dispH: real, rads: seq<string>): (r: seq<seq<Entry>>)
    requires dispW > 0.0 && dispH > 0.0
    ensures forall p :: 0 <= p < |r| ==> |r[p]| > 0 && forall k :: 0 <= k < |r[p]| ==> UnitEntry(r[p][k])
  {
    if rads == [] then []
    else
      var rest := RadEntries(anns, dispW, dispH, rads[..|rads| - 1]);
      var e := Accepted(Group(anns, RadOf, rads[|rads| - 1]), dispW, dispH);
      rest + (if |e| > 0 then [e] else [])
  }

  function BoxLists(es: seq<seq<Entry>>): (r: seq<seq<Box>>)
    ensures |r| == |es| && forall p :: 0 <= p < |es| ==> r[p] == BoxesOf(es[p])
  {
    seq(|es|, p requires 0 <= p < |es| => BoxesOf(es[p]))
  }

  function ScoreLists(es: seq<seq<Entry>>): (r: seq<seq<real>>)
    ensures |r| == |es| && forall p :: 0 <= p < |es| ==> r[p] == ScoresOf(es[p])
  {
    seq(|es|, p requires 0 <= p < |es| => ScoresOf(es[p]))
  }

  function LabelLists(es: seq<seq<Entry>>): (r: seq<seq<int>>)
    ensures |r| == |es| && forall p :: 0 <= p < |es| ==> r[p] == LabelsOf(es[p])
  {
    seq(|es|, p requires 0 <= p < |es| => LabelsOf(es[p]))
  }

  // ---------------------------------------------------------------------------
  // Corner to centre conversion (lines 263-277)
  // ---------------------------------------------------------------------------

  /** One YOLO label line: class, centre and size, all relative to the image size. */
  datatype YoloLabel = YoloLabel(classId: int, xCenter: real, yCenter: real, width: real, height: real)

  /** The centre/size form of a corner box, each value clamped to [0, 1]. */
  function ToYolo(b: Box, cls: int): (r: YoloLabel)
    ensures r.classId == cls
    ensures 0.0 <= r.xCenter <= 1.0 && 0.0 <= r.yCenter <= 1.0
    ensures 0.0 <= r.width <= 1.0 && 0.0 <= r.height <= 1.0
  {
    YoloLabel(cls, Clamp01((b.x1 + b.x2) / 2.0), Clamp01((b.y1 + b.y2) / 2.0),
              Clamp01(b.x2 - b.x1), Clamp01(b.y2 - b.y1))
  }

  /** The corner box a YOLO label describes: the inverse conversion. */
  function Corners(y: YoloLabel): Box
  {
    Box(y.xCenter - y.width / 2.0, y.yCenter - y.height / 2.0,
        y.xCenter + y.width / 2.0, y.yCenter + y.height / 2.0)
  }

  /** For a proper box in the unit square the clamps change nothing, and `centre -/+ size / 2`
      gives the corners back. */
  lemma YoloRoundTrip(b: Box, cls: int)
    requires b.InUnitSquare() && b.Proper()
    ensures var y := ToYolo(b, cls);
      && y.xCenter == (b.x1 + b.x2) / 2.0 && y.yCenter == (b.y1 + b.y2) / 2.0
      && y.width == b.x2 - b.x1 && y.height == b.y2 - b.y1
      && Corners(y) == b
  {
  }

  function YoloLines(es: seq<Entry>): (r: seq<YoloLabel>)
    ensures |r| == |es| && forall k :: 0 <= k < |es| ==> r[k] == ToYolo(es[k].box, es[k].cls)
  {
    seq(|es|, k requires 0 <= k < |es| => ToYolo(es[k].box, es[k].cls))
  }

  /** The label lines of one image (lines 214-277): no lines when no radiologist kept a box,
      otherwise the fused boxes in centre/size form. */
  function ImageYolo(anns: seq<Annotation>, dispW: real, dispH: real, iouThr: real): seq<YoloLabel>
    requires dispW > 0.0 && dispH > 0.0
  {
    var groups := RadEntries(anns, dispW, dispH, KeysInOrder(anns, RadOf));
    if |groups| == 0 then []
    else YoloLines(Fuse(BoxLists(groups), ScoreLists(groups), LabelLists(groups), iouThr, 0.0))
  }

  lemma ProjectSnoc(es: seq<Entry>, e: Entry)
    ensures BoxesOf(es + [e]) == BoxesOf(es) + [e.box]
    ensures ScoresOf(es + [e]) == ScoresOf(es) + [e.score]
    ensures LabelsOf(es + [e]) == LabelsOf(es) + [e.cls]
  {
    assert BoxesOf(es + [e]) == BoxesOf(es) + [e.box];
    assert ScoresOf(es + [e]) == ScoresOf(es) + [e.score];
    assert LabelsOf(es + [e]) == LabelsOf(es) + [e.cls];
  }

  /** The loop over one radiologist's rows (lines 227-248). */
  method RadiologistBoxes(rows: seq<Annotation>, dispW: real, dispH: real)
    returns (boxes: seq<Box>, scores: seq<real>, labels: seq<int>)
    requires dispW > 0.0 && dispH > 0.0
    ensures var e := Accepted(rows, dispW, dispH);
      boxes == BoxesOf(e) && scores == ScoresOf(e) && labels == LabelsOf(e)
  {
    boxes, scores, labels := [], [], [];
    var q := 0;
    while q < |rows|
      invariant 0 <= q <= |rows|
      invariant var e := Accepted(rows[..q], dispW, dispH);
        boxes == BoxesOf(e) && scores == ScoresOf(e) && labels == LabelsOf(e)
    {
      var r := rows[q];
      assert rows[..q + 1][..q] == rows[..q];
      var kept := NormalizeBox(r.box, dispW, dispH);
      if kept.Some? {
        ProjectSnoc(Accepted(rows[..q], dispW, dispH), Entry(kept.value, 1.0, r.classId));
        boxes := boxes + [kept.value];
        scores := scores + [1.0];
        labels := labels + [r.classId];
      }
      q := q + 1;
    }
    assert rows[..q] == rows;
  }

  lemma ListsSnoc(gs: seq<seq<Entry>>, e: seq<Entry>)
    ensures BoxLists(gs + [e]) == BoxLists(gs) + [BoxesOf(e)]
    ensures ScoreLists(gs + [e]) == ScoreLists(gs) + [ScoresOf(e)]
    ensures LabelLists(gs + [e]) == LabelLists(gs) + [LabelsOf(e)]
  {
    assert BoxLists(gs + [e]) == BoxLists(gs) + [BoxesOf(e)];
    assert ScoreLists(gs + [e]) == ScoreLists(gs) + [ScoresOf(e)];
    assert LabelLists(gs + [e]) == LabelLists(gs) + [LabelsOf(e)];
  }

  lemma RadEntriesStep(anns: seq<Annotation>, dispW: real, dispH: real, rads: seq<string>, i: nat)
    requires dispW > 0.0 && dispH > 0.0 && i < |rads|
    ensures var e := Accepted(Group(anns, RadOf, rads[i]), dispW, dispH);
      RadEntries(anns, dispW, dispH, rads[..i + 1]) ==
        RadEntries(anns, dispW, dispH, rads[..i]) + (if |e| > 0 then [e] else [])
  {
    assert rads[..i + 1][..i] == rads[..i];
  }

  /** The loop over radiologists (lines 222-253): the non-empty lists of kept boxes, scores
      and labels. */
  method RadiologistLists(rows: seq<Annotation>, dispW: real, dispH: real)
    returns (boxesList: seq<seq<Box>>, scoresList: seq<seq<real>>, labelsList: seq<seq<int>>)
    requires dispW > 0.0 && dispH > 0.0
    ensures var g := RadEntries(rows, dispW, dispH, KeysInOrder(rows, RadOf));
      boxesList == BoxLists(g) && scoresList == ScoreLists(g) && labelsList == LabelLists(g)
  {
    var rads, radGroups := GroupBy(rows, RadOf);
    boxesList, scoresList, labelsList := [], [], [];
    ghost var groups: seq<seq<Entry>> := [];
    var i := 0;
    while i < |rads|
      invariant 0 <= i <= |rads|
      invariant groups == RadEntries(rows, dispW, dispH, rads[..i])
      invariant boxesList == BoxLists(groups) && scoresList == ScoreLists(groups) && labelsList == LabelLists(groups)
    {
      var rad := rads[i];
      RadEntriesStep(rows, dispW, dispH, rads, i);
      assert rad in radGroups && radGroups[rad] == Group(rows, RadOf, rad);
      ghost var e := Accepted(radGroups[rad], dispW, dispH);
      var boxes, scores, labels := RadiologistBoxes(radGroups[rad], dispW, dispH);
      assert |boxes| == |e|;
      if |boxes| > 0 {
        ListsSnoc(groups, e);
        boxesList := boxesList + [boxes];
        scoresList := scoresList + [scores];
        labelsList := labelsList + [labels];
        groups := groups + [e];
      }
      i := i + 1;
    }
    assert rads[..i] == rads;
  }

  /** The conversion loop of lines 263-277: each fused box becomes one label line. */
  method YoloLinesOf(ghost fused: seq<Entry>, boxes: seq<Box>, labels: seq<int>) returns (lines: seq<YoloLabel>)
    requires boxes == BoxesOf(fused) && labels == LabelsOf(fused)
    ensures lines == YoloLines(fused)
  {
    lines := [];
    var k := 0;
    while k < |boxes|
      invariant 0 <= k <= |boxes| && |lines| == k
      invariant forall j :: 0 <= j < k ==> lines[j] == ToYolo(fused[j].box, fused[j].cls)
    {
      lines := lines + [ToYolo(boxes[k], labels[k])];
      k := k + 1;
    }
  }

  /** The body of the per-image loop (lines 214-277): gather the radiologists' lists, fuse
      them and convert the fused boxes. */
  method ImageLabels(rows: seq<Annotation>, dispW: real, dispH: real, iouThr: real)
    returns (lines: seq<YoloLabel>)
    requires dispW > 0.0 && dispH > 0.0
    ensures lines == ImageYolo(rows, dispW, dispH, iouThr)
  {
    ghost var groups := RadEntries(rows, dispW, dispH, KeysInOrder(rows, RadOf));
    var boxesList, scoresList, labelsList := RadiologistLists(rows, dispW, dispH);
    if |boxesList| == 0 {
      assert |groups| == 0;
      return [];
    }
    var mergedBoxes, mergedScores, mergedLabels := WeightedBoxesFusion(boxesList, scoresList, labelsList, iouThr, 0.0);
    ghost var fused := Fuse(boxesList, scoresList, labelsList, iouThr, 0.0);
    lines := YoloLinesOf(fused, mergedBoxes, mergedLabels);
    assert ImageYolo(rows, dispW, dispH, iouThr) == YoloLines(fused);
  }

  /** What the label lines of an image say: they are ordered by class, there are no more of
      them than kept boxes, and each is the exact centre/size form of a fused box in the unit
      square with positive size, so `Corners` recovers that box. */
  lemma ImageYoloExact(anns: seq<Annotation>, dispW: real, dispH: real, iouThr: real)
    requires dispW > 0.0 && dispH > 0.0
    ensures var groups := RadEntries(anns, dispW, dispH, KeysInOrder(anns, RadOf));
      var lines := ImageYolo(anns, dispW, dispH, iouThr);
      var fused := Fuse(BoxLists(groups), ScoreLists(groups), LabelLists(groups), iouThr, 0.0);
      && |lines| == |fused|
      && |lines| <= |AllSurvivors(BoxLists(groups), ScoreLists(groups), LabelLists(groups), 0.0)|
      && (forall i, j :: 0 <= i < j < |lines| ==> lines[i].classId <= lines[j].classId)
      && forall k :: 0 <= k < |lines| ==>
           lines[k].classId == fused[k].cls && fused[k].score == 1.0 &&
           fused[k].box.InUnitSquare() && fused[k].box.Proper() && Corners(lines[k]) == fused[k].box
  {
    var groups := RadEntries(anns, dispW, dispH, KeysInOrder(anns, RadOf));
    var bl, sl, ll := BoxLists(groups), ScoreLists(groups), LabelLists(groups);
    var fused := Fuse(bl, sl, ll, iouThr, 0.0);
    assert ImageYolo(anns, dispW, dispH, iouThr) == YoloLines(fused) by {
      if |groups| == 0 {
        assert |bl| == 0 && fused == [];
      }
    }
    FusionCount(bl, sl, ll, iouThr, 0.0);
    FusionLabels(bl, sl, ll, iouThr, 0.0);
    ListsUnit(groups);
    SurvivorsUnit(bl, sl, ll, 0.0, Min3(|bl|, |sl|, |ll|));
    FusionUnit(bl, sl, ll, iouThr, 0.0);
    YoloLinesExact(fused);
  }

  /** The lists built from unit entries hold unit boxes, all scored 1. */
  lemma ListsUnit(groups: seq<seq<Entry>>)
    requires forall p :: 0 <= p < |groups| ==> forall k :: 0 <= k < |groups[p]| ==> UnitEntry(groups[p][k])
    ensures var bl, sl := BoxLists(groups), ScoreLists(groups);
      forall p, q :: 0 <= p < |bl| && p < |sl| && 0 <= q < |bl[p]| && q < |sl[p]| ==>
        bl[p][q].InUnitSquare() && bl[p][q].Proper() && sl[p][q] == 1.0
  {
  }

  /** The lines of fused unit entries in ascending label order are ascending in class, and
      each is the exact centre/size form of its entry's box. */
  lemma YoloLinesExact(fused: seq<Entry>)
    requires LabelsAscending(fused)
    requires forall k :: 0 <= k < |fused| ==> UnitEntry(fused[k])
    ensures var lines := YoloLines(fused);
      && (forall i, j :: 0 <= i < j < |lines| ==> lines[i].classId <= lines[j].classId)
      && forall k :: 0 <= k < |lines| ==> lines[k].classId == fused[k].cls && Corners(lines[k]) == fused[k].box
  {
    forall k | 0 <= k < |fused| ensures Corners(ToYolo(fused[k].box, fused[k].cls)) == fused[k].box {
      YoloRoundTrip(fused[k].box, fused[k].cls);
    }
  }

  // ---------------------------------------------------------------------------
  // Train / validation split (lines 286-309)
  // ---------------------------------------------------------------------------

  function Elems(s: seq<string>): set<string>
  {
    set x | x in s
  }

  function MinInt(a: int, b: int): int
  {
    if a <= b then a else b
  }

  /** `floor(n * f)`: the share of `n` items a fraction `f` selects. */
  function FloorShare(n: nat, f: real): int
  {
    ((n as real) * f).Floor
  }

  /** `ids[:int(len(ids) * val_split)]` */
  function ValPart(ids: seq<string>, valSplit: real): seq<string>
  {
    PyPrefix(ids, Trunc(|ids| as real * valSplit))
  }

  /** `ids[int(len(ids) * val_split):]` */
  function TrainPart(ids: seq<string>, valSplit: real): seq<string>
  {
    PySuffix(ids, Trunc(|ids| as real * valSplit))
  }

  lemma FractionFloor(n: nat, f: real)
    requires 0.0 <= f <= 1.0
    ensures 0 <= ((n as real) * f).Floor <= n
  {
    var a := n as real;
    var x := a * f;
    MulMonotone(a, f, a, 1.0);
    assert a * 1.0 == a;
    assert 0.0 <= x <= a;
    assert (x.Floor as real) <= x < (x.Floor as real) + 1.0;
  }

  /** The validation and training parts of distinct ids split them without overlap, and
      the validation part holds `floor(n * val_split)` ids. */
  lemma SplitParts(ids: seq<string>, valSplit: real)
    requires NoDup(ids)
    ensures ValPart(ids, valSplit) + TrainPart(ids, valSplit) == ids
    ensures NoDup(ValPart(ids, valSplit)) && NoDup(TrainPart(ids, valSplit))
    ensures Elems(ValPart(ids, valSplit)) + Elems(TrainPart(ids, valSplit)) == Elems(ids)
    ensures Elems(ValPart(ids, valSplit)) * Elems(TrainPart(ids, valSplit)) == {}
    ensures 0.0 <= valSplit <= 1.0 ==> |ValPart(ids, valSplit)| == FloorShare(|ids|, valSplit)
  {
    var v, t := ValPart(ids, valSplit), TrainPart(ids, valSplit);
    PySplit(ids, Trunc(|ids| as real * valSplit));
    assert v + t == ids;
    NoDupSplit(v, t);
    ElemsConcat(v, t);
    if 0.0 <= valSplit <= 1.0 {
      ValPartCount(ids, valSplit);
    }
  }

  lemma ValPartCount(ids: seq<string>, valSplit: real)
    requires 0.0 <= valSplit <= 1.0
    ensures |ValPart(ids, valSplit)| == FloorShare(|ids|, valSplit)
  {
    FractionFloor(|ids|, valSplit);
    var cut := Trunc(|ids| as real * valSplit);
    assert cut == FloorShare(|ids|, valSplit);
    assert PyBound(|ids|, cut) == cut;
  }

  lemma ElemsConcat(a: seq<string>, b: seq<string>)
    ensures Elems(a + b) == Elems(a) + Elems(b)
  {
    forall x ensures x in a + b <==> x in a || x in b {
    }
  }

  /** `no_finding_list[:min(int(n_findings * ratio), len(no_finding_list))]` */
  function Selected(noFinding: seq<string>, nFinding: nat, ratio: real): seq<string>
  {
    PyPrefix(noFinding, MinInt(Trunc(nFinding as real * ratio), |noFinding|))
  }

  lemma SelectedSpec(noFinding: seq<string>, nFinding: nat, ratio: real)
    requires NoDup(noFinding)
    ensures NoDup(Selected(noFinding, nFinding, ratio))
    ensures Elems(Selected(noFinding, nFinding, ratio)) <= Elems(noFinding)
    ensures ratio >= 0.0 ==>
      |Selected(noFinding, nFinding, ratio)| == MinInt(FloorShare(nFinding, ratio), |noFinding|)
  {
    var v := MinInt(Trunc(nFinding as real * ratio), |noFinding|);
    PySplit(noFinding, v);
    NoDupSplit(PyPrefix(noFinding, v), PySuffix(noFinding, v));
    if ratio >= 0.0 {
      MulMonotone(0.0, 0.0, nFinding as real, ratio);
    }
  }

  /** The id sets the split produces. */
  datatype Split = Split(train: set<string>, val: set<string>)

  /** Lines 292-309, given the two shuffled lists. */
  function SplitDataset(findingList: seq<string>, noFindingList: seq<string>, valSplit: real, ratio: real): Split
  {
    var sel := Selected(noFindingList, |findingList|, ratio);
    Split(Elems(TrainPart(findingList, valSplit)) + Elems(TrainPart(sel, valSplit)),
          Elems(ValPart(findingList, valSplit)) + Elems(ValPart(sel, valSplit)))
  }

  /** The split puts every finding image and every selected no-finding image in exactly one
      of the two sets, and keeps the finding images' validation part apart. */
  lemma SplitDatasetSets(findingList: seq<string>, noFindingList: seq<string>, valSplit: real, ratio: real)
    requires NoDup(findingList) && NoDup(noFindingList)
    requires Elems(findingList) * Elems(noFindingList) == {}
    ensures var r := SplitDataset(findingList, noFindingList, valSplit, ratio);
      var sel := Selected(noFindingList, |findingList|, ratio);
      && r.train * r.val == {}
      && r.train + r.val == Elems(findingList) + Elems(sel)
      && r.val * Elems(findingList) == Elems(ValPart(findingList, valSplit))
      && (r.train + r.val) * Elems(noFindingList) == Elems(sel)
      && r.val * Elems(noFindingList) == Elems(ValPart(sel, valSplit))
  {
    var sel := Selected(noFindingList, |findingList|, ratio);
    SelectedSpec(noFindingList, |findingList|, ratio);
    SplitParts(findingList, valSplit);
    SplitParts(sel, valSplit);
    SplitSets(Elems(ValPart(findingList, valSplit)), Elems(TrainPart(findingList, valSplit)),
              Elems(ValPart(sel, valSplit)), Elems(TrainPart(sel, valSplit)),
              Elems(findingList), Elems(sel), Elems(noFindingList));
  }

  /** `floor(n * val_split)` distinct ids go to validation. */
  lemma ValCount(ids: seq<string>, valSplit: real)
    requires NoDup(ids) && 0.0 <= valSplit <= 1.0
    ensures |Elems(ValPart(ids, valSplit))| == FloorShare(|ids|, valSplit)
  {
    SplitParts(ids, valSplit);
    NoDupCard(ValPart(ids, valSplit));
  }

  /** `min(floor(n * ratio), available)` no-finding images are selected. */
  lemma SelectedCount(noFinding: seq<string>, nFinding: nat, ratio: real)
    requires NoDup(noFinding) && ratio >= 0.0
    ensures |Elems(Selected(noFinding, nFinding, ratio))| == MinInt(FloorShare(nFinding, ratio), |noFinding|)
  {
    SelectedSpec(noFinding, nFinding, ratio);
    NoDupCard(Selected(noFinding, nFinding, ratio));
  }

  /** The set algebra of the split: two disjoint partitions of disjoint sets. */
  lemma SplitSets(vf: set<string>, tf: set<string>, vs: set<string>, ts: set<string>,
                  f: set<string>, s: set<string>, n: set<string>)
    requires vf + tf == f && vf * tf == {} && vs + ts == s && vs * ts == {}
    requires s <= n && f * n == {}
    ensures (tf + ts) * (vf + vs) == {}
    ensures (tf + ts) + (vf + vs) == f + s
    ensures (vf + vs) * f == vf
    ensures ((tf + ts) + (vf + vs)) * n == s
    ensures (vf + vs) * n == vs
  {
    assert (vf + vs) * f == vf by {
      forall x | x in vs ensures x !in f {
        assert x in n;
        assert x !in f * n;
      }
    }
    assert ((tf + ts) + (vf + vs)) * n == s by {
      forall x | x in f ensures x !in n {
        assert x !in f * n;
      }
    }
    assert (vf + vs) * n == vs by {
      forall x | x in vf ensures x !in n {
        assert x in f && x !in f * n;
      }
      forall x | x in vs ensures x in n {
        assert x in s;
      }
    }
  }

  /** `random.shuffle(list(s))`: the elements of `s`, each once, in an order the model leaves
      open. */
  method Shuffled(s: set<string>) returns (xs: seq<string>)
    ensures NoDup(xs) && Elems(xs) == s
  {
    xs := [];
    var rest := s;
    while rest != {}
      invariant NoDup(xs) && Elems(xs) + rest == s && Elems(xs) * rest == {}
      decreases |rest|
    {
      var x :| x in rest;
      NoDupConcat(xs, [x]);
      xs := xs + [x];
      rest := rest - {x};
    }
  }

  // ---------------------------------------------------------------------------
  // The whole conversion (lines 149-309)
  // ---------------------------------------------------------------------------

  /** Every annotation has a positive display size. */
  predicate PositiveDisplays(anns: seq<Annotation>)
  {
    forall a :: a in anns ==> a.displayW > 0.0 && a.displayH > 0.0
  }

  /** The label lines of image `id`, from its rows at its display size. An id without rows,
      or a display size that is not positive, gives no lines; the conversion never meets
      either, as it visits only the ids of rows with positive display sizes. */
  function LabelsFor(anns: seq<Annotation>, id: string, iouThr: real): seq<YoloLabel>
  {
    var g := Group(anns, ImageOf, id);
    if |g| == 0 || DisplayOf(g).0 <= 0.0 || DisplayOf(g).1 <= 0.0 then []
    else ImageYolo(g, DisplayOf(g).0, DisplayOf(g).1, iouThr)
  }

  /** The dictionary a loop over `ids` builds when it stores `f(id)` for every id whose
      `f(id)` is not empty. */
  function NonEmptyMap<T>(ids: seq<string>, f: string -> seq<T>): map<string, seq<T>>
  {
    if ids == [] then map[]
    else
      var m, last := NonEmptyMap(ids[..|ids| - 1], f), ids[|ids| - 1];
      if |f(last)| > 0 then m[last := f(last)] else m
  }

  /** The dictionary holds exactly the ids of `ids` with a non-empty value, each with its
      value. */
  lemma {:induction false} NonEmptyMapSpec<T>(ids: seq<string>, f: string -> seq<T>)
    ensures forall id :: id in NonEmptyMap(ids, f) <==> id in ids && |f(id)| > 0
    ensures forall id :: id in NonEmptyMap(ids, f) ==> NonEmptyMap(ids, f)[id] == f(id)
  {
    if ids != [] {
      var init, last := ids[..|ids| - 1], ids[|ids| - 1];
      NonEmptyMapSpec(init, f);
      assert ids == init + [last];
    }
  }

  lemma NonEmptyMapStep<T>(ids: seq<string>, f: string -> seq<T>, i: nat)
    requires i < |ids|
    ensures var m := NonEmptyMap(ids[..i], f);
      NonEmptyMap(ids[..i + 1], f) == if |f(ids[i])| > 0 then m[ids[i] := f(ids[i])] else m
  {
    assert ids[..i + 1][..i] == ids[..i] && ids[..i + 1][i] == ids[i];
  }

  /** One pass of the per-image loop: the rows and display size looked up for image `id`
      give that image's label lines. */
  method LabelImage(anns: seq<Annotation>, id: string, g: seq<Annotation>, size: (real, real), iouThr: real)
    returns (lines: seq<YoloLabel>)
    requires PositiveDisplays(anns) && id in KeysInOrder(anns, ImageOf)
    requires g == Group(anns, ImageOf, id) && |g| > 0 && size == DisplayOf(g)
    ensures lines == LabelsFor(anns, id, iouThr)
  {
    assert g[|g| - 1] in anns;
    lines := ImageLabels(g, size.0, size.1, iouThr);
  }

  /** The label lines of every image, as a function of its id. */
  function LinesOf(anns: seq<Annotation>, iouThr: real): string -> seq<YoloLabel>
  {
    id => LabelsFor(anns, id, iouThr)
  }

  /** The `yolo_labels` dictionary the per-image loop builds. */
  function LabelMap(anns: seq<Annotation>, iouThr: real): map<string, seq<YoloLabel>>
  {
    NonEmptyMap(KeysInOrder(anns, ImageOf), LinesOf(anns, iouThr))
  }

  /** The dictionary holds exactly the images that have at least one label line, each with
      its lines. */
  lemma LabelMapSpec(anns: seq<Annotation>, iouThr: real)
    ensures forall id :: id in LabelMap(anns, iouThr) <==>
      id in KeysInOrder(anns, ImageOf) && |LabelsFor(anns, id, iouThr)| > 0
    ensures forall id :: id in LabelMap(anns, iouThr) ==> LabelMap(anns, iouThr)[id] == LabelsFor(anns, id, iouThr)
  {
    NonEmptyMapSpec(KeysInOrder(anns, ImageOf), LinesOf(anns, iouThr));
  }

  /** The per-image loop of lines 213-280: `yolo_labels` holds the lines of every image that
      has at least one (see LabelMapSpec). */
  method LabelImages(anns: seq<Annotation>, iouThr: real) returns (yolo: map<string, seq<YoloLabel>>)
    requires PositiveDisplays(anns)
    ensures yolo == LabelMap(anns, iouThr)
  {
    var ids, annotations, displaySizes := GroupByImage(anns);
    yolo := map[];
    var i := 0;
    while i < |ids|
      invariant 0 <= i <= |ids|
      invariant yolo == NonEmptyMap(ids[..i], LinesOf(anns, iouThr))
    {
      var id := ids[i];
      NonEmptyMapStep(ids, LinesOf(anns, iouThr), i);
      var lines := LabelImage(anns, id, annotations[id], displaySizes[id], iouThr);
      if |lines| > 0 {
        yolo := yolo[id := lines];
      }
      i := i + 1;
    }
    assert ids[..i] == ids;
  }

  /** Lines 289-309: shuffle both id collections and split them. */
  method SplitImages(labelled: set<string>, pure: set<string>, valSplit: real, ratio: real)
    returns (train: set<string>, val: set<string>)
    requires labelled * pure == {}
    ensures train * val == {}
    ensures labelled <= train + val
    ensures forall id :: id in train + val ==> id in labelled || id in pure
    ensures 0.0 <= valSplit <= 1.0 ==> |val * labelled| == FloorShare(|labelled|, valSplit)
    ensures ratio >= 0.0 ==> |(train + val) * pure| == MinInt(FloorShare(|labelled|, ratio), |pure|)
    ensures 0.0 <= valSplit <= 1.0 ==> |val * pure| == FloorShare(|(train + val) * pure|, valSplit)
  {
    var findingList := Shuffled(labelled);
    var noFindingList := Shuffled(pure);
    NoDupCard(findingList);
    NoDupCard(noFindingList);
    assert |findingList| == |labelled| && |noFindingList| == |pure|;
    SplitDatasetSets(findingList, noFindingList, valSplit, ratio);
    if 0.0 <= valSplit <= 1.0 {
      ValCount(findingList, valSplit);
    }
    if ratio >= 0.0 {
      SelectedCount(noFindingList, |findingList|, ratio);
    }
    SelectedSpec(noFindingList, |findingList|, ratio);
    var sel := Selected(noFindingList, |findingList|, ratio);
    NoDupCard(sel);
    if 0.0 <= valSplit <= 1.0 {
      ValCount(sel, valSplit);
    }
    var split := SplitDataset(findingList, noFindingList, valSplit, ratio);
    train, val := split.train, split.val;
  }

  /** `convert_dataset` without the file writing: the YOLO labels of every image that has at
      least one fused box, and the train and validation id sets. */
  method ConvertDataset(rows: seq<Row>, valSplit: real, iouThr: real, ratio: real)
    returns (yolo: map<string, seq<YoloLabel>>, train: set<string>, val: set<string>)
    requires PositiveDisplays(Annotated(rows))
    ensures forall id :: id in yolo <==>
      id in KeysInOrder(Annotated(rows), ImageOf) && |LabelsFor(Annotated(rows), id, iouThr)| > 0
    ensures forall id :: id in yolo ==> yolo[id] == LabelsFor(Annotated(rows), id, iouThr) && id in FindingIds(rows)
    ensures train * val == {}
    ensures yolo.Keys <= train + val
    ensures forall id :: id in train + val ==> id in yolo || id in PureNoFinding(rows)
    ensures 0.0 <= valSplit <= 1.0 ==> |val * yolo.Keys| == FloorShare(|yolo|, valSplit)
    ensures ratio >= 0.0 ==>
      |(train + val) * PureNoFinding(rows)| == MinInt(FloorShare(|yolo|, ratio), |PureNoFinding(rows)|)
    ensures 0.0 <= valSplit <= 1.0 ==>
      |val * PureNoFinding(rows)| == FloorShare(|(train + val) * PureNoFinding(rows)|, valSplit)
  {
    var anns := Annotated(rows);
    yolo := LabelImages(anns, iouThr);
    LabelMapSpec(anns, iouThr);
    assert forall id :: id in yolo ==> id in FindingIds(rows) by {
      forall id | id in yolo ensures id in FindingIds(rows) {
        var k :| 0 <= k < |anns| && ImageOf(anns[k]) == id;
      }
    }
    assert |yolo.Keys| == |yolo|;
    train, val := SplitImages(yolo.Keys, PureNoFinding(rows), valSplit, ratio);
  }
}
