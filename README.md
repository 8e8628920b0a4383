# CheXpert chest X-ray detector — verified model of the core

CheXpert is a chest X-ray abnormality detector. Its core has three parts, and this project models all three in Dafny.

- **Dataset converter** (`final/training/convert_annotations.py`). It reads VinBigData radiologist annotation rows and sets aside the "No finding" images. It groups the boxes per image and then per radiologist. Each box is normalised to the unit square and clamped, and degenerate boxes are rejected. The boxes are then fused with a simplified Weighted Boxes Fusion (WBF): greedy clustering by intersection-over-union (IoU), then a score-weighted average. Each fused box becomes a YOLO centre/size label, and the images are split into train and validation sets.
- **Detection API** (`final/backend/main.py`). `format_detections` filters the detector's raw boxes by confidence and names their classes. It gives each box both pixel and image-relative coordinates and sorts the list by confidence, highest first. `predict` summarises the top detection, and `batch_predict` returns one result per uploaded file.
- **Chat endpoint** (`final/backend/Chat.py`). `process_chat` builds one finding line and one block of medical context per detection. The context comes from a knowledge-table lookup, or from embedding-similarity retrieval when the class is not a key. It then asks the language model and, unless the model could not be reached, has a summary of the answer spoken.

Modules:

- `Wrappers`: optional values.
- `SeqUtil`: sums, duplicate freedom, Python slicing, truncation, `str.join`, substring search.
- `Sorting`: Python's stable `list.sort(reverse=True)`.
- `Boxes`: the box type and `_iou`.
- `Fusion`: `weighted_boxes_fusion`.
- `Conversion`: `convert_dataset`.
- `Detections`: main.py.
- `Chat`: Chat.py.

Loops that update state in the source are modelled as methods with loop invariants. Each method is proved equal to a specification function, and the lemmas state what that function guarantees. Examples:

- WBF keeps its `used` flags in an `array<bool>`, and its greedy clustering is the function `Fusion.Clusters`.
- The conversion's main loop builds the label map `Conversion.LabelMap`.
- `format_detections` builds `Detections.Formatted`.

Outside services are function-typed parameters: the YOLO detector, the image decoder, the sentence embeddings, the language model, the speech synthesiser, Python's `round` and the string formatting. `process_chat` returns the trace of calls it makes, so the model can state which calls happen.

## Model

| member | source | states |
|---|---|---|
| Boxes.Overlap | final/training/convert_annotations.py:98-103 | The overlap of two intervals is never negative, and never longer than either interval. |
| Boxes.IouShare | final/training/convert_annotations.py:103-108 | A union that is not positive gives IoU 0; otherwise IoU times the union is the intersection. |
| Boxes.IouSymmetric | final/training/convert_annotations.py:96-108 | IoU does not depend on the order of its two boxes. |
| Boxes.AreaPositive | final/training/convert_annotations.py:104-105 | A box whose second corner lies strictly beyond its first has positive area. |
| Boxes.IntersectionBounds | final/training/convert_annotations.py:98-103 | The intersection of two proper boxes is at least 0 and at most either box's area. |
| Boxes.IouBounds | final/training/convert_annotations.py:96-108 | The IoU of two proper boxes lies in [0, 1]. |
| Boxes.IouDisjoint | final/training/convert_annotations.py:103-108 | Boxes separated along either axis have IoU 0. |
| Boxes.IouSelf | final/training/convert_annotations.py:96-108 | A proper box has IoU 1 with itself. |
| Fusion.Kept | final/training/convert_annotations.py:42-46 | The boxes one annotator keeps all score above the skip threshold. |
| Fusion.Survivors | final/training/convert_annotations.py:41-46 | Every box left after flattening scores above the skip threshold. |
| Fusion.KeptEmpty | final/training/convert_annotations.py:42-46 | An annotator keeps no box exactly when none of their scores is above the threshold. |
| Fusion.SurvivorsEmpty | final/training/convert_annotations.py:41-46 | Flattening the first `n` annotators keeps nothing exactly when none of their scores is above the threshold. |
| Fusion.AllSurvivorsEmpty | final/training/convert_annotations.py:41-49 | The flattened list is empty exactly when no zipped score is above the threshold. |
| Fusion.Unique | final/training/convert_annotations.py:56 | `np.unique` gives strictly ascending labels, exactly those that occur. |
| Fusion.WithLabel | final/training/convert_annotations.py:62-64 | The mask keeps only entries of the given label. It keeps every entry of that label, so at least one when the label occurs, and no more than it had. |
| Fusion.JoinersSpec | final/training/convert_annotations.py:75-81 | From a seed, the inner loop takes in exactly the later unused boxes whose IoU with the seed is above the threshold, in index order. It marks exactly those as used, along with those used before. |
| Fusion.SeedCluster | final/training/convert_annotations.py:68-81 | A cluster is ascending and starts at its seed. Every member after the seed overlaps it beyond the threshold. The taken boxes were unused, and only the cluster's members become used. |
| Fusion.ClustersFromShape | final/training/convert_annotations.py:68-81 | The clusters left from index `i` are non-empty and in range. Each one is seeded by its first member, and there are at most `n - i` of them. |
| Fusion.ClustersFromCover | final/training/convert_annotations.py:67-81 | The clusters left from `i` contain each index `>= i` that was unused at `i`, exactly once, and no other index. |
| Fusion.ClustersPartition | final/training/convert_annotations.py:67-81 | The greedy clusters of one label partition its boxes: every box is in exactly one cluster, and each cluster is seeded by its first member. |
| Fusion.InExactlyOneCluster | final/training/convert_annotations.py:67-81 | In a duplicate-free clustering, a covered index lies in exactly one cluster. |
| Fusion.WithLabelSpec | final/training/convert_annotations.py:62-64 | The mask of a label holds every entry with that label as often as the flattened list does, and no other entry. |
| Fusion.MasksSpec | final/training/convert_annotations.py:61-64 | Over strictly ascending labels, the masks together hold each entry whose label is among them as often as it occurs, and no other entry. |
| Fusion.MaskOfOwnLabel | final/training/convert_annotations.py:56-64 | Every surviving entry's label is among `np.unique`'s labels. The entry lies in the mask of that label and in no other mask. |
| Fusion.MasksCover | final/training/convert_annotations.py:56-64 | The masks of the unique labels together hold exactly the surviving entries, each as often as it occurs. |
| Fusion.FlatClustersLength | final/training/convert_annotations.py:67-81 | The greedy clusters of one label hold as many memberships as the label has boxes. |
| Fusion.ClusteredCountMasks | final/training/convert_annotations.py:61-81 | Over the label loop, the clusterings together hold as many memberships as the masks hold entries. |
| Fusion.FusionPartition | final/training/convert_annotations.py:41-81 | Each box that survives the skip threshold falls in the mask of exactly one label, and the masks hold every survivor as often as it occurs. The clusterings of the masks, each a partition of its mask, hold exactly as many memberships as there are survivors, so every survivor reaches exactly one cluster. |
| Fusion.DivideAll | final/training/convert_annotations.py:84-85 | Normalising the weights divides each one by the total and keeps them positive. |
| Fusion.WeightedSumBounds | final/training/convert_annotations.py:86 | A positively weighted sum of values in [lo, hi] lies between lo and hi times the total weight. |
| Fusion.AverageWithin | final/training/convert_annotations.py:84-86 | The weighted average of values in [lo, hi] lies in [lo, hi]. |
| Fusion.MergeWithin | final/training/convert_annotations.py:86 | Each coordinate of the merged box lies within the range of its cluster's coordinates. |
| Fusion.MergeProper | final/training/convert_annotations.py:86 | Merging proper boxes gives a proper box. |
| Fusion.MergeScore | final/training/convert_annotations.py:87 | The mean score lies within the range of the cluster's scores, and equals that score when all are the same. |
| Fusion.MergeAllAt | final/training/convert_annotations.py:83-91 | The k-th output of a label is the merge of its k-th cluster. |
| Fusion.GrowCluster | final/training/convert_annotations.py:71-81 | The inner loop collects the boxes and scores of the seed and its joiners, and leaves `used` as the clustering function says. |
| Fusion.MergeSeeded | final/training/convert_annotations.py:71-87 | One seeded pass yields the merge of the cluster the clustering function gives for that seed. |
| Fusion.ClusterStep | final/training/convert_annotations.py:68-91 | One seed pass extends the clusters found so far by the next cluster of the specification, and the outputs by its merge. |
| Fusion.ClusterPass | final/training/convert_annotations.py:68-91 | The same step, carried out on the `used` array. |
| Fusion.FuseLabel | final/training/convert_annotations.py:61-91 | The per-label loop returns the merges of the greedy clusters, in seed order. |
| Fusion.FlattenSurvivors | final/training/convert_annotations.py:37-46 | The nested flattening loop builds the entries above the skip threshold, in annotator and row order. |
| Fusion.FuseAllLabels | final/training/convert_annotations.py:55-91 | The loop over unique labels concatenates each label's fused boxes, in label order. |
| Fusion.WeightedBoxesFusion | final/training/convert_annotations.py:26-93 | The procedure returns the boxes, scores and labels of the fusion specification, including the empty result for no input and for nothing above the threshold. |
| Fusion.FusedLabelShape | final/training/convert_annotations.py:66-91 | A label with `n` boxes fuses to between 1 and `n` boxes, all of that label, and to none when it has no boxes. |
| Fusion.FuseLabelsCount | final/training/convert_annotations.py:55-91 | Fusing distinct labels yields no more boxes than there are entries with those labels. |
| Fusion.FusionCount | final/training/convert_annotations.py:26-93 | WBF never returns more boxes than survive the skip threshold. |
| Fusion.FusionEmptyIff | final/training/convert_annotations.py:34-49 | WBF returns nothing exactly when there are no annotators or no score is above the threshold. |
| Fusion.FuseLabelsOrdered | final/training/convert_annotations.py:56-91 | The output labels are ascending and all appear among the fused labels. |
| Fusion.FusionLabels | final/training/convert_annotations.py:26-93 | WBF's labels are ascending and are labels of surviving boxes. |
| Fusion.MergeUnit | final/training/convert_annotations.py:83-87 | Merging proper unit-square boxes of score 1 gives a proper unit-square box of score 1. |
| Fusion.FusedLabelUnit | final/training/convert_annotations.py:61-91 | Applied to such boxes, one label's output consists of proper unit-square boxes of score 1. |
| Fusion.FuseLabelsUnit | final/training/convert_annotations.py:55-91 | The same holds for the whole per-label loop. |
| Fusion.KeptUnit | final/training/convert_annotations.py:42-46 | Filtering preserves that shape. |
| Fusion.SurvivorsUnit | final/training/convert_annotations.py:41-46 | Flattening preserves that shape. |
| Fusion.FusionUnit | final/training/convert_annotations.py:26-93 | When every surviving box is a proper unit-square box of score 1, so is every fused box. |
| Conversion.PureNoFinding | final/training/convert_annotations.py:174-179 | A pure no-finding image has a "No finding" row and no finding row. |
| Conversion.Annotated | final/training/convert_annotations.py:174-185 | The kept annotations are finding rows with a box, from images that have findings, and there are no more of them than rows. |
| Conversion.AnnotatedNotPure | final/training/convert_annotations.py:178-185 | No kept annotation belongs to a pure no-finding image. |
| Conversion.KeysInOrder | final/training/convert_annotations.py:198-206 | The keys of the `defaultdict`, in insertion order: no repeats, and exactly the keys that occur. |
| Conversion.Group | final/training/convert_annotations.py:198-206 | The list under a key holds exactly the items with that key, and no more of them than the input has. |
| Conversion.GroupMapKeys | final/training/convert_annotations.py:198-206 | The grouping dictionary has exactly the keys that occur. |
| Conversion.GroupMapValues | final/training/convert_annotations.py:198-206 | Each key maps to the in-order list of its items. |
| Conversion.GroupBy | final/training/convert_annotations.py:217-220 | The grouping loop returns the keys in insertion order, and under each key exactly its items, in input order. |
| Conversion.DisplaysLast | final/training/convert_annotations.py:199-205 | The display-size dictionary has the same keys as the grouping. The size stored for an image is that of its last row. |
| Conversion.GroupByImage | final/training/convert_annotations.py:198-206 | The per-image loop builds both dictionaries: every image's non-empty row list, and its last row's display size. |
| Conversion.Clamp01 | final/training/convert_annotations.py:238-241 | `max(0, min(1, x))` lies in [0, 1], leaves values in [0, 1] unchanged, and sends values below to 0 and above to 1. |
| Conversion.Normalized | final/training/convert_annotations.py:232-241 | A divided and clamped box lies in the unit square. |
| Conversion.NormalizeBox | final/training/convert_annotations.py:231-248 | An accepted box is a proper box in the unit square. |
| Conversion.NormalizeKeepsOnlyProper | final/training/convert_annotations.py:231-244 | Only boxes that were proper in display coordinates are accepted. |
| Conversion.NormalizeInterior | final/training/convert_annotations.py:231-244 | A proper box that normalises into the unit square is accepted unchanged by the clamp. |
| Conversion.Accepted | final/training/convert_annotations.py:230-248 | A radiologist's accepted entries are proper unit-square boxes with score 1.0, and there are no more of them than rows. |
| Conversion.RadEntries | final/training/convert_annotations.py:226-253 | Only radiologists with at least one accepted box contribute, and their entries have that shape. |
| Conversion.ToYolo | final/training/convert_annotations.py:265-275 | The centre/size label keeps the class, and each of its four values lies in [0, 1]. |
| Conversion.YoloRoundTrip | final/training/convert_annotations.py:265-275 | For a proper unit-square box the clamps do nothing, and converting back to corners gives the box again. |
| Conversion.RadiologistBoxes | final/training/convert_annotations.py:226-248 | The per-row loop builds the boxes, scores and labels of the accepted rows. |
| Conversion.RadiologistLists | final/training/convert_annotations.py:217-253 | The loop over radiologists builds the three WBF input lists, skipping radiologists with no accepted box. |
| Conversion.YoloLinesOf | final/training/convert_annotations.py:264-277 | The label loop over the fused arrays gives one label per fused box. |
| Conversion.ImageLabels | final/training/convert_annotations.py:213-277 | One image's label lines are the YOLO labels of the fused radiologist boxes. |
| Conversion.ImageYoloExact | final/training/convert_annotations.py:213-280 | One image gets one label per fused box, up to the number of accepted boxes, in ascending class order. Each label converts back exactly to its fused box. |
| Conversion.YoloLinesExact | final/training/convert_annotations.py:264-277 | Labels of fused entries keep their ascending classes and convert back exactly to the fused boxes. |
| Conversion.SplitParts | final/training/convert_annotations.py:292-294 | The validation and training parts partition the shuffled list. The validation part has `int(n * val_split)` images. |
| Conversion.ValPartCount | final/training/convert_annotations.py:292 | `val_count` is `floor(n * val_split)` for a split fraction in [0, 1]. |
| Conversion.SelectedSpec | final/training/convert_annotations.py:298-302 | The selected background images are distinct no-finding images. There are `min(int(n * ratio), available)` of them. |
| Conversion.SplitDatasetSets | final/training/convert_annotations.py:289-309 | Train and validation are disjoint and together hold the labelled images plus the selected backgrounds. The labelled images in validation are exactly the labelled validation part, and the backgrounds in validation are exactly the selected backgrounds' validation part. |
| Conversion.ValCount | final/training/convert_annotations.py:292-293 | The validation set of labelled images has `floor(n * val_split)` members. |
| Conversion.SelectedCount | final/training/convert_annotations.py:298-302 | The set of selected background images has `min(int(n * ratio), available)` members. |
| Conversion.Shuffled | final/training/convert_annotations.py:289-299 | A shuffled list holds each member of the set exactly once. |
| Conversion.NonEmptyMapSpec | final/training/convert_annotations.py:279-280 | An image has an entry exactly when its label list is non-empty, and the entry is that list. |
| Conversion.LabelImage | final/training/convert_annotations.py:213-280 | The body for one image computes that image's label lines. |
| Conversion.LabelMapSpec | final/training/convert_annotations.py:211-280 | `yolo_labels` holds exactly the annotated images with at least one label line, each with its lines. |
| Conversion.LabelImages | final/training/convert_annotations.py:211-280 | The WBF loop over images builds `yolo_labels`. |
| Conversion.SplitImages | final/training/convert_annotations.py:289-309 | Train and validation are disjoint and cover every labelled image, and nothing but labelled and pure background images. Validation holds `floor(n * val_split)` labelled images, and `min(int(n * ratio), available)` backgrounds are used. Validation holds `floor(m * val_split)` of the `m` backgrounds used. |
| Conversion.ConvertDataset | final/training/convert_annotations.py:149-309 | The pipeline labels exactly the finding images with a fused box. It splits them with the selected backgrounds into disjoint train and validation sets. Validation holds `floor(n * val_split)` of the `n` labelled images, `min(int(n * ratio), available)` backgrounds are used, and validation holds `floor(m * val_split)` of the `m` backgrounds used. |
| Detections.NatToString | final/backend/main.py:65 | The decimal rendering of a number is non-empty and all digits. |
| Detections.NatToStringRoundTrip | final/backend/main.py:65 | Reading the digits back gives the number. |
| Detections.NatToStringInjective | final/backend/main.py:65 | Different numbers render differently. |
| Detections.ClassNameInjective | final/backend/main.py:29-65 | Different class ids get different names, whether from the table or as `class_<id>`. |
| Detections.TableDistinct | final/backend/main.py:29-34 | The fourteen class names are pairwise distinct. |
| Detections.NormalizedScale | final/backend/main.py:73-78 | Normalisation divides by the image size, and multiplying back recovers the pixel box. A box inside the image normalises into the unit square. |
| Detections.FromBoxesSound | final/backend/main.py:55-79 | Every detection of a result comes from one of its boxes with confidence at least the threshold. |
| Detections.FromBoxesComplete | final/backend/main.py:55-79 | Every box of a result with confidence at least the threshold yields a detection. |
| Detections.CollectedSound | final/backend/main.py:45-79 | Every collected detection comes from a kept box of some result. |
| Detections.CollectedComplete | final/backend/main.py:45-79 | Every kept box of every result is collected. |
| Detections.FormattedOrder | final/backend/main.py:81-83 | The returned list is sorted by rounded confidence, highest first. It is a permutation of the collected detections, and detections of equal confidence keep their input order. |
| Detections.FormattedMembers | final/backend/main.py:45-83 | A detection is returned exactly when it comes from a box of some result whose confidence is at least the threshold. |
| Detections.CollectedEmpty | final/backend/main.py:48-51 | Results without boxes, or with an empty box list, contribute nothing. |
| Detections.FormatDetections | final/backend/main.py:45-83 | The nested filtering loop, followed by the sort, returns the formatted detections. |
| Detections.SummaryShape | final/backend/main.py:139-144 | The summary is "No abnormalities detected" exactly for an empty list. Otherwise it starts with the top detection's class name. |
| Detections.SummaryOfTop | final/backend/main.py:137-144 | `predict` summarises a detection of highest confidence, and reports no abnormality exactly when no box passed the threshold. |
| Detections.BatchPredict | final/backend/main.py:156-192 | There is one result per file, in order, with its filename, its formatted detections, their count and its image size. The total is the number of files. |
| Chat.AskLlamaFailure | final/backend/Chat.py:128-142 | A failed request returns a reply that contains "unable to connect". |
| Chat.LookupSpec | final/backend/Chat.py:201-202 | A class is a key of the knowledge table exactly when some entry has it, and the lookup gives that entry's text. |
| Chat.ArgsortSpec | final/backend/Chat.py:125 | The argsort lists every index once, in ascending order of similarity. |
| Chat.TopOfArgsort | final/backend/Chat.py:125 | For any ascending argsort, `[-top_k:]` keeps `min(top_k, n)` distinct in-range indices, each scoring at least as high as every index left out. |
| Chat.TopIndicesSpec | final/backend/Chat.py:125 | The kept indices number `min(top_k, n)`, or `n` when `top_k = 0`. They are in range, and none scores lower than an index left out. |
| Chat.RetrieveBest | final/backend/Chat.py:122-126 | With `top_k = 1` the fallback returns the single most similar knowledge text, or nothing for an empty table. |
| Chat.RetrieveCount | final/backend/Chat.py:122-126 | The fallback returns `min(top_k, n)` knowledge texts, or all `n` when `top_k = 0`. |
| Chat.FindingsSpec | final/backend/Chat.py:195-199 | There is one finding line per detection, in order, each the class name and the formatted percentage. |
| Chat.BlockForSpec | final/backend/Chat.py:201-205 | A known class contributes its knowledge text. An unknown class contributes the single most similar knowledge text. |
| Chat.ContextBlocksSpec | final/backend/Chat.py:195-205 | With a non-empty table there is exactly one context block per detection, and each block is a knowledge text. |
| Chat.PromptShape | final/backend/Chat.py:207-215 | The findings say "No visible abnormalities." exactly when there are no detections. Otherwise they start with the first finding line and end with a closing parenthesis. The history starts with the old history and ends with the question. |
| Chat.AudioUrlSpec | final/backend/Chat.py:244 | There is an audio url exactly when a non-empty file name came back, and it is the output prefix followed by that name. |
| Chat.ProcessChat | final/backend/Chat.py:189-249 | The answer is the model's reply to the prompt. If the reply contains "unable to connect", only that one call is made and there is no audio. Otherwise the summary is requested and spoken, and the audio url comes from the synthesiser's file name. |
| Chat.FailureShortCircuits | final/backend/Chat.py:233-239 | When the model cannot be reached, the answer is the failure reply, which triggers the early return. |

## Left out

- I/O is not modelled: reading the CSV, image files, symlinks, the dataset YAML, directory creation and printing. The conversion starts from the rows as values and returns the label map and the two sets.
- `final/training/train_yolo.py` is not part of this model: it only drives the Ultralytics trainer.
- The FastAPI routing, the CORS set-up, the `/`, `/health` and `/model_info` routes, and reading the uploaded bytes are left out. They hold no logic beyond constants.
- Timing (`inference_time_seconds`, `total_time_seconds`) is left out: clocks are outside the model.
- The outside services are parameters; the model does not state what they return:
  - the YOLO detector (`model.predict`);
  - the image decoder;
  - the sentence embeddings, as a similarity function standing for the dot product of two embeddings;
  - the language model;
  - the speech synthesiser, including `uuid` file naming and the `piper.exe` existence check.
- Floating point is modelled by exact reals. Rounding (`round`, `:.1f`, `:.1%`, `:.6f`) is a parameter, so the label lines are numbers, not formatted strings.
- `Conversion.NormalizeBox`: a zero display size divides by zero in the source. A negative display size is accepted there: the converter divides, clamps into the unit square and usually rejects the box as empty (`final/training/convert_annotations.py:232-246`). The model requires positive display sizes (`PositiveDisplays`), which excludes negative sizes as physically meaningless. `Detections.Sized` requires a positive `orig_shape` for the same reasons: zero divides by zero, and a negative size, accepted by the API, gives negative normalised coordinates (`final/backend/main.py:74-77`).
- `Fusion.WeightedBoxesFusion`: requires `skip_box_thr >= 0`. With a negative threshold a zero or negative score could enter a cluster, and the weight normalisation could divide by zero. The conversion only uses the default 0.0.
- `Conversion.LabelsFor`: made total by a guard that returns no labels for an empty group or a non-positive display size. The conversion never reaches that guard.
- `Chat.TopIndicesSpec`: NumPy does not fix the order of equal similarities. The model's argsort keeps ties in index order, and the top-k properties are proved for any ascending argsort (`Chat.TopOfArgsort`).
- `Conversion.Shuffled`: `random.shuffle` and `list(set)` are modelled as an arbitrary duplicate-free ordering. The seeded generator is not modelled.
- `Fusion.Entry`: labels are integers and class ids are natural numbers. Python's negative indexing of `CLASS_NAMES` with a negative class id is not modelled.
- The knowledge texts of `medical_knowledge` and the prose of the prompts are left out. The knowledge table is a parameter, and a prompt is modelled by the substrings it is built from.
- A `class_name` key that is present but holds `None` is not modelled. Only a missing key (giving "Unknown") is.
