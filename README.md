# Arterys inference SDK: a verified model of its core

This project models the deterministic core of the Arterys inference SDK and proves properties of that model. The SDK has two sides:

- an HTTP gateway that receives a multipart inference request, passes its parts to a model function, and returns a multipart reply;
- a test tool that orders DICOM instances, sends them, and draws the returned masks, boxes and labels over the images.

The modelled pieces are the ones with logic of their own. Each module follows one source file, or one concern shared by several copies of a file:

- `SeriesOrder` (`series_order.dfy`) orders a study for the newer test tool. It groups instances by SeriesInstanceUID and sorts them along the slice normal. It counts the timepoints and reorders the images timepoint-major, setting `timepoint` on each one.
- `LegacySort` (`legacy_sort.dfy`) is the older test tool's single spatial sort.
- `MaskFilter` (`mask_filter.dfy`) splits a response into segmentation masks and DICOM payloads.
- `Gateway` (`gateway.dfy`) covers the inference serializer, the route table, the digests and the response field list.
- `UploadStudy` (`upload_study.dfy`) covers the older client script: the command choice, the numbering of request fields, the checks on the reply, and the 2-D re-ordering by SOPInstanceUID.
- `MaskOverlay`, `BoxOverlay` and `LabelOverlay` cover the bookkeeping of the three preview writers:
  - mask slicing by a running offset, with its timepoint reset;
  - pixel selection and colours;
  - box removal from the caller's list;
  - label layout counters.
- `MockServer` and `LegacyMockServer` cover the canned replies of the two mock models, including the growing-rectangle 3-D mask.
- `Cli` (`cli_model.dfy`) covers the runner for command-line models. The operating system is an object that records every call made to it.
- `ImageConversion` (`image_conversion.dfy`) covers the mask post-processing after a NIfTI load, and the MONOCHROME1 to MONOCHROME2 conversion. The three source copies of the file agree on the `get_masks_from_nifti_file` post-load transform. The MONOCHROME1 conversion exists only in utils/image_conversion.py.
- `TaggedLogging` (`tagged_logger.dfy`) covers the `TaggedLogger` adapter. The two source copies are identical.
- Shared modules:
  - `Common`: Option, Result and Python's exceptions, concatenation, decimal names;
  - `Sorting`: Python's stable `sorted`, modelled as a stable insertion sort keyed by a total order, and string order;
  - `Geometry`, `Matrix` and `Manifest`.
  - `Binary64` (`binary64.dfy`): rounding to IEEE 754 binary64, as Python's `/`, `*` and int-to-float conversion do it, and `int()` truncation. The mock models compute their rectangle sizes through it.

A few functions the code depends on are passed in as parameters:

- the SHA-256 hex digest;
- JSON encoding and decoding in the gateway;
- the seeded random colour;
- the "within 1e-3" position test, an abstract `close` predicate;
- pixel decoding, blending and base names;
- the operating system's failures and directory walk.

`DICOM_BINARY_TYPES` comes from a constants module that is not part of this model, so it is a parameter as well. The set the tests use is `Manifest.TestDicomBinaryTypes`. Positions and direction cosines are exact reals.

Python's exceptions are values. A function that would raise returns `Err(e)` with the exception's class, such as `IndexError` for `images[0]` on an empty list. Most objects that the source changes in place are classes:

- the route table;
- the caller's box list;
- the operating system log;
- the DICOM dataset;
- `TaggedLogger`.

Arrays that numpy changes in place are Dafny arrays. The one exception is the `timepoint` stamp on DICOM images, which the model writes on copies (see `SeriesOrder.EmitByTimepoint` under "Left out"). Every method that loops in the source is proved equal to a specification function, and the properties are lemmas about those functions.

## Model

| member | source | states |
|---|---|---|
| Geometry.Normal | arterys_sdk/inference_test_tool/utils.py:32-34 | the cross product of `orientation[0:3]` and `orientation[3:6]` is orthogonal to both rows, and swapping the rows negates it |
| SeriesOrder.Direction | arterys_sdk/inference_test_tool/utils.py:29-34 | `direction()` is absent exactly when the orientation is absent; otherwise it is a slice normal orthogonal to both direction cosines |
| SeriesOrder.GroupConsecutiveShape | arterys_sdk/inference_test_tool/utils.py:96 | `itertools.groupby` cuts the list into runs that share one SeriesInstanceUID and that concatenate back to the list |
| SeriesOrder.GroupConsecutiveKeys | arterys_sdk/inference_test_tool/utils.py:96 | on a list sorted by SeriesInstanceUID, the runs have strictly increasing UIDs, so no UID heads two runs |
| SeriesOrder.GroupBySeriesGroups | arterys_sdk/inference_test_tool/utils.py:94-96 | every group of `group_by_series` shares one UID and is exactly the input's images of that UID, in input order |
| SeriesOrder.GroupBySeriesKeys | arterys_sdk/inference_test_tool/utils.py:94-96 | the groups' keys are distinct and in increasing string order, as the dict built from `groupby` iterates them |
| SeriesOrder.GroupBySeriesCover | arterys_sdk/inference_test_tool/utils.py:94-96 | the groups hold every input image exactly as often as the input does |
| SeriesOrder.SpatialSortCorrect | arterys_sdk/inference_test_tool/utils.py:105-106 | the spatial sort is a permutation; the projection of `position - pos0` onto the first image's direction is non-decreasing; equal projections keep their input order |
| SeriesOrder.CountFrom | arterys_sdk/inference_test_tool/utils.py:149-153 | the while loop stops at the first index at or after k whose position is not close to image 0, or at the end |
| SeriesOrder.Timepoints | arterys_sdk/inference_test_tool/utils.py:143-153 | the timepoint count T satisfies 1 <= T <= len; images 1..T-1 are close to image 0; image T, if any, is not |
| SeriesOrder.DetermineTimepoints | arterys_sdk/inference_test_tool/utils.py:143-153 | the loop over `end_index` returns that count T, with the same bounds and closeness facts |
| SeriesOrder.SortByInstanceCorrect | arterys_sdk/inference_test_tool/utils.py:117 | sorting a block by `instance_number` permutes it and leaves the instance numbers non-decreasing |
| SeriesOrder.BlocksShape | arterys_sdk/inference_test_tool/utils.py:116-117 | for len = S*T, there are S sorted blocks of T images; block i is the sorted slice `[i*T, (i+1)*T)` |
| SeriesOrder.SortedBlocksSnoc | arterys_sdk/inference_test_tool/utils.py:116-117 | each iteration of the block loop adds the next sorted slice and leaves the earlier ones unchanged |
| SeriesOrder.BlocksPerm | arterys_sdk/inference_test_tool/utils.py:116-117 | sorting the blocks in place keeps the multiset of images |
| SeriesOrder.ColumnsAt | arterys_sdk/inference_test_tool/utils.py:119-124 | column t, row i of the re-emitted images is element t of block i, with `timepoint` set to t |
| SeriesOrder.ColumnsUntimed | arterys_sdk/inference_test_tool/utils.py:119-124 | re-emitting by timepoint loses and duplicates nothing, apart from the `timepoint` field it sets |
| SeriesOrder.TimepointOrderAt | arterys_sdk/inference_test_tool/utils.py:112-124 | for T > 1 and len = S*T, output[t*S+i] is element t of spatial block i after that block's sort by instance number, with timepoint t |
| SeriesOrder.TimepointOrderPermutation | arterys_sdk/inference_test_tool/utils.py:112-124 | the timepoint-major output is a permutation of the spatial order, apart from the `timepoint` field |
| SeriesOrder.TimepointCount | arterys_sdk/inference_test_tool/utils.py:108 | the count used by `sort_series_images` lies between 1 and the number of images |
| SeriesOrder.OrderSeriesEmpty | arterys_sdk/inference_test_tool/utils.py:100 | `sort_series_images` raises IndexError exactly on an empty list |
| SeriesOrder.OrderSeriesUnsortable | arterys_sdk/inference_test_tool/utils.py:100-106 | a first image without a position or orientation gives the input back unchanged; a later image without a position makes the sort key raise TypeError |
| SeriesOrder.OrderSeriesSingleTimepoint | arterys_sdk/inference_test_tool/utils.py:108-110 | with one timepoint the result is the spatial sort |
| SeriesOrder.OrderSeriesAssertion | arterys_sdk/inference_test_tool/utils.py:112-114 | AssertionError exactly when T > 1 and T does not divide the number of images |
| SeriesOrder.OrderSeriesLayout | arterys_sdk/inference_test_tool/utils.py:112-124 | when T > 1 divides the count, the result is the timepoint-major order; a missing instance number makes the block sort raise TypeError |
| SeriesOrder.OrderSpatialPermutation | arterys_sdk/inference_test_tool/utils.py:105-124 | every successful ordering of a spatially sorted series permutes it, apart from `timepoint` |
| SeriesOrder.OrderSeriesPermutation | arterys_sdk/inference_test_tool/utils.py:99-125 | every successful `sort_series_images` returns a permutation of its input, apart from `timepoint` |
| SeriesOrder.SortBlocksInPlace | arterys_sdk/inference_test_tool/utils.py:116-117 | the slice-assignment loop leaves exactly the concatenation of the sorted blocks |
| SeriesOrder.EmitByTimepoint | arterys_sdk/inference_test_tool/utils.py:119-125 | the nested append loop produces the columns of the block matrix, stamped with their timepoints |
| SeriesOrder.SortSeriesImages | arterys_sdk/inference_test_tool/utils.py:99-125 | the imperative `sort_series_images` returns the specified ordering, or the specified error |
| SeriesOrder.OrderGroupsPermutation | arterys_sdk/inference_test_tool/utils.py:88-90 | concatenating the ordered series permutes the grouped images, apart from `timepoint` |
| SeriesOrder.NoIndexError | arterys_sdk/inference_test_tool/utils.py:88-90 | ordering non-empty groups never hits the IndexError of an empty series |
| SeriesOrder.ErrorPersists | arterys_sdk/inference_test_tool/utils.py:88-90 | the first series that raises ends `sort_images` with that error |
| SeriesOrder.SortImagesPermutation | arterys_sdk/inference_test_tool/utils.py:85-96 | `sort_images` never raises IndexError, and its result is a permutation of its input, apart from `timepoint` |
| SeriesOrder.SortImages | arterys_sdk/inference_test_tool/utils.py:85-91 | the loop over the groups returns the specified result |
| Sorting.SortByCorrect | arterys_sdk/inference_test_tool/utils.py:96 | the insertion-sort model of `sorted` under a total order returns a sorted permutation |
| Sorting.SortByStable | inference-test-tool/utils.py:84-85 | the model of `sorted` is stable: the elements with any one key stay in input order |
| Sorting.SortedByFilters | arterys_sdk/inference_test_tool/utils.py:96 | two sorted lists with the same subsequence for every key are equal, so a stable sort has a single possible result |
| Sorting.SortBySorted | inference-test-tool/utils.py:84-85 | sorting an already sorted list returns it unchanged |
| Sorting.StrLeIsTotalOrder | arterys_sdk/inference_test_tool/utils.py:95-96 | comparison of string keys (SeriesInstanceUID) is a total order |
| Sorting.RealLeIsTotalOrder | arterys_sdk/inference_test_tool/utils.py:105-106 | comparison of the projections is a total order |
| Sorting.IntLeIsTotalOrder | arterys_sdk/inference_test_tool/utils.py:117 | comparison of instance numbers is a total order |
| LegacySort.Direction | inference-test-tool/utils.py:19-24 | the older `direction()` is absent exactly when the orientation is absent; otherwise it is the normal of the two rows, orthogonal to both |
| LegacySort.SortImagesOutcomes | inference-test-tool/utils.py:77-85 | IndexError exactly on an empty list; the input unchanged when image 0 lacks a position or orientation; TypeError exactly when a later image has no position |
| LegacySort.SortImagesOrdered | inference-test-tool/utils.py:84-85 | otherwise the result is a permutation whose projection onto image 0's normal, relative to image 0's position, is non-decreasing; there is no grouping and no timepoint |
| LegacySort.SortImagesStable | inference-test-tool/utils.py:84-85 | images with equal projection keep their input order |
| LegacySort.SortImagesSortedInput | inference-test-tool/utils.py:84-85 | an input already in projection order comes back unchanged |
| MaskFilter.FilterMaskParts | arterys_sdk/inference_test_tool/utils.py:128-129 | KeyError unless every part has a binary_type; otherwise the result keeps exactly the parts whose type is not a DICOM type |
| MaskFilter.SelectIsFilter | arterys_sdk/inference_test_tool/utils.py:128-129 | the kept parts are the input's non-DICOM parts in input order |
| MaskFilter.CaptureFlags | arterys_sdk/inference_test_tool/utils.py:136-137 | `np.in1d` gives one flag per mask, true exactly for the indexes of DICOM parts |
| MaskFilter.FilterMasksByBinaryType | arterys_sdk/inference_test_tool/utils.py:132-140 | KeyError unless every part is typed; the two outputs together hold every mask; an empty mask list gives two empty outputs |
| MaskFilter.FilterMasksRouting | arterys_sdk/inference_test_tool/utils.py:132-140 | mask i goes to the secondary captures iff part i exists with a DICOM type, and to the binary masks otherwise; merging the two outputs back by the flags gives the masks in their order |
| MaskFilter.SelectMerge | arterys_sdk/inference_test_tool/utils.py:138-139 | the two boolean-index selections lose nothing and keep order: merging them by the flags rebuilds the input |
| MaskFilter.SelectMember | arterys_sdk/inference_test_tool/utils.py:138-139 | an element whose flag matches is in the selection |
| MaskFilter.SelectOrigin | arterys_sdk/inference_test_tool/utils.py:138-139 | every selected element comes from an index whose flag matches |
| MaskFilter.SelectSplit | arterys_sdk/inference_test_tool/utils.py:138-139 | the two selections' sizes add up to the input's |
| MaskFilter.MasksPairWithParts | arterys_sdk/inference_test_tool/utils.py:128-140 | with one mask per part, there are exactly as many binary masks as non-DICOM parts |
| Gateway.Convert | gateway.py:56-64 | `dicom_secondary_capture` gives `application/dicom` with the blob unchanged; the four array types give `application/binary` with the raw bytes; anything else raises NotImplementedError |
| Gateway.SerializeSucceeds | gateway.py:44-64 | the serializer succeeds iff every zipped position has an effective binary type that converts |
| Gateway.SerializeLength | gateway.py:44-47 | a successful serialization yields exactly min(len(parts), len(binary_components)) elements |
| Gateway.SerializeAt | gateway.py:44-64 | element i is the conversion of blob i under the binary type in force at position i |
| Gateway.EffectiveShift | gateway.py:49-52 | a part without `binary_type` reuses the previous part's type, because the caught KeyError leaves `binary_type` unchanged |
| Gateway.SerializeNeverUnbound | gateway.py:49-56 | once some type has been read, a missing key never raises UnboundLocalError |
| Gateway.SerializeErrorKinds | gateway.py:49-64 | the serializer can raise only UnboundLocalError or NotImplementedError |
| Gateway.SerializeErrors | gateway.py:49-56 | UnboundLocalError exactly when the first zipped part has no binary_type |
| Gateway.Serialize | gateway.py:44-64 | the generator loop yields the specified elements, or raises the specified error |
| Gateway.RouteTable.constructor | gateway.py:70-75 | a new gateway has an empty model table and only the `/ping` rule |
| Gateway.RouteTable.AddInferenceRoute | gateway.py:98-110 | a duplicate route raises ValueError and changes nothing; otherwise the table gains exactly that route and function, and the URL rules gain exactly that route |
| Gateway.Charset | gateway.py:126-129 | the charset parameter when present, else `utf-8` |
| Gateway.MakeFieldTuple | gateway.py:245-252 | the field name doubles as the file name; the header dict is kept only when it is non-empty |
| Gateway.Feed | gateway.py:144-145 | feeding chunks to the hash object hashes their concatenation |
| Gateway.ExtendFields | gateway.py:188-191 | the extend loop appends one `elem_i` field per serialized element, in order |
| Gateway.DoInference | gateway.py:124-210 | the request handler returns the specified reply or error |
| Gateway.InferenceRejectsContentType | gateway.py:131-134 | a content type not starting with `multipart/related` gives a 400 with the message, whatever the body |
| Gateway.InferenceErrors | gateway.py:137-164 | no parts raises IndexError; undecodable JSON raises ValueError; only those two and the serializer's errors can escape |
| Gateway.InferenceFields | gateway.py:142-210 | a multipart reply has status 200 and the request's boundary. The model gets the decoded JSON, parts[1:] and the input digest, which is H of all request parts concatenated. The hashes field is that digest, `:`, and H of the dumped JSON bytes followed by each element |
| Gateway.ResponseFieldsLayout | gateway.py:180-198 | the fields are `json-body` (application/json), then `elem_0..elem_{n-1}` with the serializer's MIME types, then `hashes` (text/plain): n+2 in all |
| Gateway.ResponseFieldNamesDistinct | gateway.py:180-198 | no two response fields share a name |
| UploadStudy.InferenceCommand | inference-test-tool/run.py:41-53 | bounding box gives `get-bounding-box-2d`; segmentation gives the 2-D or 3-D mask command by whether image 0 has a position, and IndexError on no images; anything else gives `other` |
| UploadStudy.CommandAfterSort | inference-test-tool/run.py:38-51 | after the legacy sort, the command depends only on the first loaded image's position |
| UploadStudy.AttachmentFields | inference-test-tool/run.py:59-65 | one `application/octet-stream` field per attachment, in argument order |
| UploadStudy.ImageFieldsNumbered | inference-test-tool/run.py:67-77 | the readable images, in order, get consecutive numbers; an unreadable image is skipped without using a number |
| UploadStudy.BuildFileDict | inference-test-tool/run.py:59-81 | the counter-and-append loops, then the insert at 0, build the specified field list |
| UploadStudy.FileDictLayout | inference-test-tool/run.py:59-81 | `request_json` (text/json) comes first; attachments are fields `1..k`; readable images continue from k+1 as `application/dicom` |
| UploadStudy.ContentTypeAccepted | inference-test-tool/run.py:36-85 | the client's `multipart/related; boundary="..."` header passes the gateway's content-type check |
| UploadStudy.ExitCode | inference-test-tool/run.py:89-91 | a non-200 status exits with code 1, and a 200 goes on |
| UploadStudy.SegmentationMasks | inference-test-tool/run.py:99-107 | AssertionError unless the reply has len(parts)+2 parts; the masks are reply parts 1..len(parts) |
| UploadStudy.MasksExcludeFraming | inference-test-tool/run.py:101-107 | the reply is the JSON part, then the masks, then the digests part |
| UploadStudy.MaskFiles | inference-test-tool/run.py:122-123 | mask i is saved as `output_masks_{i+1}.npy` |
| UploadStudy.MaskFileNamesDistinct | inference-test-tool/run.py:122-123 | different masks get different file names |
| UploadStudy.FirstWithUid | inference-test-tool/run.py:114 | `next(...)` finds the first image with that SOPInstanceUID, or none |
| UploadStudy.Identifiers | inference-test-tool/run.py:111 | KeyError unless every part names its `dicom_image` UID; otherwise the UIDs in part order |
| UploadStudy.ReorderByUid | inference-test-tool/run.py:112-115 | the append loop builds the specified re-ordering |
| UploadStudy.ReorderCorrect | inference-test-tool/run.py:111-115 | the re-ordering succeeds iff every UID has an image, else StopIteration; entry i is the first image with UID i |
| MaskOverlay.GetColors | inference-test-tool/test_inference_mask.py:14-26 | an index below 6 gives the palette colour scaled by the maximum, each channel 0 or max; a larger index gives the colour seeded by the index, or ValueError when the maximum is 0 |
| MaskOverlay.ColorChannels | inference-test-tool/test_inference_mask.py:21-26 | every channel lies between 0 and the maximum |
| MaskOverlay.OverlaySelects | inference-test-tool/test_inference_mask.py:74-81 | only pixels whose mask value exceeds 128 are blended; the rest keep their value, whatever the binary type |
| MaskOverlay.ApplyMask | inference-test-tool/test_inference_mask.py:76-81 | the masked assignment rewrites the pixel array into the specified overlay |
| MaskOverlay.Slice | inference-test-tool/test_inference_mask.py:69 | numpy slicing clamps to the buffer, and is the exact slice when in range |
| MaskOverlay.MaskLayers | inference-test-tool/test_inference_mask.py:67-81 | the layered overlay keeps the image's pixel count whenever no assertion fails |
| MaskOverlay.MaskLayersZip | inference-test-tool/test_inference_mask.py:67 | masks and parts are paired positionally, truncated to the shorter list |
| MaskOverlay.MaskLayersKeep | inference-test-tool/test_inference_mask.py:67-81 | a pixel that no mask selects comes out unchanged |
| MaskOverlay.DrawMask | inference-test-tool/test_inference_mask.py:69-81 | one mask's slice check and overlay advance the specified layering by one step |
| MaskOverlay.ApplyMasks | inference-test-tool/test_inference_mask.py:67-81 | the inner loop over zipped masks and parts gives the specified pixels, or the assertion it fails |
| MaskOverlay.RunStartIsLast | inference-test-tool/test_inference_mask.py:62-65 | the offset's reset point is the last image whose timepoint differs from the one before |
| MaskOverlay.LastTimepointIsLastSeen | inference-test-tool/test_inference_mask.py:62-65 | `last_timepoint` is the latest timepoint seen so far |
| MaskOverlay.OffsetStep | inference-test-tool/test_inference_mask.py:62-83 | the offset resets to 0 when the timepoint changes, then advances by Rows*Columns after each image |
| MaskOverlay.OffsetIsRunVolume | inference-test-tool/test_inference_mask.py:55-83 | the offset is the pixel count of the images since the last timepoint change |
| MaskOverlay.OffsetWithoutTimepoints | inference-test-tool/test_inference_mask.py:55-83 | without timepoints the offset is the pixel count of the whole volume |
| MaskOverlay.PreviewImage | inference-test-tool/test_inference_mask.py:58-90 | one image's preview is the specified overlay and name `{index}_{basename}.png` |
| MaskOverlay.CheckMaskSizes | inference-test-tool/test_inference_mask.py:92-93 | the final loop passes iff every mask's length is the final offset |
| MaskOverlay.DrawImage | inference-test-tool/test_inference_mask.py:57-90 | one iteration of the image loop advances the specified preview run |
| MaskOverlay.GenerateImagesWithMasks | inference-test-tool/test_inference_mask.py:41-93 | the whole loop writes the specified previews, or stops at the specified assertion |
| MaskOverlay.MasksFromStop | inference-test-tool/test_inference_mask.py:71-72 | a failing slice assertion ends the run with the previews written so far |
| MaskOverlay.MasksFromNext | inference-test-tool/test_inference_mask.py:57-90 | a successful image adds its preview and moves the offset and last timepoint on |
| MaskOverlay.MasksEnd | inference-test-tool/test_inference_mask.py:57-93 | a run with no failure writes one preview per remaining image, and every mask has the final offset's length |
| MaskOverlay.MasksFitLastRun | inference-test-tool/test_inference_mask.py:92-93 | a successful run writes one preview per image, and every mask has the pixel count of the last timepoint's images |
| MaskOverlay.SingleImage | inference-test-tool/test_inference_mask.py:112-131 | one image of the single-image variant: size check, colour index 0, threshold 128 |
| MaskOverlay.GenerateImagesForSingleImageMasks | inference-test-tool/test_inference_mask.py:95-131 | the loop over zipped images and masks writes the specified previews |
| MaskOverlay.SingleLength | inference-test-tool/test_inference_mask.py:111 | a successful run writes min(len(images), len(masks)) previews |
| MaskOverlay.SingleOutputAt | inference-test-tool/test_inference_mask.py:111-131 | preview i is image i overlaid with mask i in colour 0 and named after index i; its mask has the image's pixel count |
| BoxOverlay.Outline | inference-test-tool/test_inference_boxes.py:29-31 | the closed five-point path ul, (br.x, ul.y), br, (ul.x, br.y), ul |
| BoxOverlay.FontSize | inference-test-tool/test_inference_boxes.py:35 | the font size is the floor of the box height over 20 |
| BoxOverlay.StrokesLayout | inference-test-tool/test_inference_boxes.py:27-38 | each box draws its outline at width 5, then its label at its font size, in box order |
| BoxOverlay.BoxList.constructor | inference-test-tool/test_inference_boxes.py:13 | the caller's list of boxes |
| BoxOverlay.BoxList.Remove | inference-test-tool/test_inference_boxes.py:40 | `list.remove` drops the first equal box, or raises ValueError and changes nothing |
| BoxOverlay.RemoveFirstMultiset | inference-test-tool/test_inference_boxes.py:40 | removing a present box takes exactly one copy out of the list |
| BoxOverlay.RemainingUnmatched | inference-test-tool/test_inference_boxes.py:25-40 | after k images, the caller's list holds exactly the boxes addressed to none of them, in order |
| BoxOverlay.DrawnOnFirstMatch | inference-test-tool/test_inference_boxes.py:25 | image k draws the boxes with its SOPInstanceUID that no earlier image took |
| BoxOverlay.RemoveDrawn | inference-test-tool/test_inference_boxes.py:40 | each removal takes the drawn box out of the caller's list |
| BoxOverlay.DrawBoxes | inference-test-tool/test_inference_boxes.py:27-40 | the inner loop draws every selected box and removes each from the caller's list |
| BoxOverlay.DrawImage | inference-test-tool/test_inference_boxes.py:19-45 | one image's preview and the list left behind are as specified |
| BoxOverlay.GenerateImagesWithBoxes | inference-test-tool/test_inference_boxes.py:13-45 | one preview per image, and the caller's list ends holding exactly the boxes that match no image |
| BoxOverlay.PreviewNamesDistinct | inference-test-tool/test_inference_boxes.py:43-44 | previews of different images get different `{index}_{basename}.png` names |
| LabelOverlay.LabelLines | inference-test-tool/test_inference_classification.py:51-53 | label i is drawn as `label: value` at x = 10, at y = top + 10*i |
| LabelOverlay.DrawLines | inference-test-tool/test_inference_classification.py:51-53 | the label loop draws those lines and advances y by 10 per label |
| LabelOverlay.DrawBlock | inference-test-tool/test_inference_classification.py:49-53 | a heading and its labels advance y by 10*(1+n) |
| LabelOverlay.DrawImage | inference-test-tool/test_inference_classification.py:39-70 | one image's drawing is as specified, and `study_level_y` afterwards is the series top |
| LabelOverlay.GenerateImagesWithLabels | inference-test-tool/test_inference_classification.py:13-70 | the loop produces the specified preview for every image |
| LabelOverlay.StudyOnFirstImageOnly | inference-test-tool/test_inference_classification.py:47-65 | study labels appear only on image 0 and only with `study_ml_json`; every image's series heading is drawn at (5, study_level_y) |
| LabelOverlay.HeadingOnlyFirst | inference-test-tool/test_inference_classification.py:49-53 | only a block's first line can be the study heading |
| LabelOverlay.LineIsNoHeading | inference-test-tool/test_inference_classification.py:52 | a label line is never the study heading |
| LabelOverlay.SeriesBelowStudy | inference-test-tool/test_inference_classification.py:34-61 | on image 0 the lines sit 10 apart from y = 0; the series heading sits at 10*(1+n) |
| LabelOverlay.LabelNamesDistinct | inference-test-tool/test_inference_classification.py:68-70 | previews of different images get different names |
| MockServer.CannedRepliesHaveNoBuffers | arterys_sdk/mock_server.py:34-86 | the empty, classification and bounding-box replies have protocol 1.0, no parts and no buffers |
| MockServer.MockBoxDrawnOnFirstImage | arterys_sdk/mock_server.py:72-86 | the mock box targets the first instance's SOPInstanceUID with corners [5,5] and [10,10], so the box preview draws it on that image |
| MockServer.MockLabelsListed | arterys_sdk/mock_server.py:48-69 | the classification reply's series labels sit under the first instance's series, below two study labels |
| MockServer.MidpointHalf | arterys_sdk/mock_server.py:116-117 | `int(size / 2)` is the integer half of the side for every side below 2^53 |
| MockServer.MidpointExact | arterys_sdk/mock_server.py:116-117 | the midpoint converts to a float without rounding, so `s / depth * mid` multiplies by the midpoint itself |
| MockServer.OffsetBound | arterys_sdk/mock_server.py:118-120 | for s < depth, the float half-extent `int(s / depth * mid)` is at most the midpoint |
| MockServer.OffsetMonotone | arterys_sdk/mock_server.py:118-120 | the float half-extent never shrinks as the slice index grows |
| MockServer.OffsetZero | arterys_sdk/mock_server.py:118-120 | slice 0 has half-extent 0 |
| MockServer.FloatOffset | arterys_sdk/mock_server.py:119-120 | for s = 7, depth = 10 and mid = 90 the float half-extent is 62, one less than the exact 7*90/10 = 63 |
| MockServer.RectangleInImage | arterys_sdk/mock_server.py:116-121 | the lit rectangle starts inside the image for every side, and ends inside it for every side below 2^53 |
| MockServer.RectanglesNested | arterys_sdk/mock_server.py:115-122 | slice 0 is dark, and each slice's lit region contains the previous slice's |
| Binary64.BinadeUnique | arterys_sdk/mock_server.py:119-120 | the exponent that brings a positive value into the mantissa range [2^52, 2^53) is unique |
| Binary64.BinadeMono | arterys_sdk/mock_server.py:119-120 | a larger value never has a smaller binade |
| Binary64.RoundMono | arterys_sdk/mock_server.py:119-120 | rounding to the nearest binary64 value is monotone |
| Binary64.RoundExact | arterys_sdk/mock_server.py:119-120 | a value n * 2^-j with n <= 2^53 is a binary64 value and rounds to itself |
| Binary64.RoundNat | arterys_sdk/mock_server.py:116-120 | every natural number up to 2^53 converts to a float exactly |
| Binary64.RoundAt | arterys_sdk/mock_server.py:119-120 | a value whose scaled mantissa rounds down to n rounds to n * 2^-j |
| Binary64.HalfTruncated | arterys_sdk/mock_server.py:116-117 | `int(n / 2)` is n div 2 for every n below 2^53 |
| Binary64.TruncExact | arterys_sdk/mock_server.py:116-117 | the truncation of a rounded float converts back to a float exactly |
| Binary64.QuotientZero | arterys_sdk/mock_server.py:119-120 | `0 / d` is 0.0 |
| Binary64.QuotientBelowOne | arterys_sdk/mock_server.py:119-120 | `s / d` with s < d rounds to at most 1.0 |
| Binary64.QuotientMono | arterys_sdk/mock_server.py:119-120 | `s / d` never decreases as s grows |
| Binary64.TimesMono | arterys_sdk/mock_server.py:119-120 | the float product with a fixed factor is monotone in the other factor |
| Binary64.TimesZero | arterys_sdk/mock_server.py:119-120 | `0.0 * m` is 0.0 |
| Binary64.TimesAtMost | arterys_sdk/mock_server.py:119-120 | a factor in [0, 1] times a float m rounds to at most m |
| MockServer.FillRow | arterys_sdk/mock_server.py:122 | one row of the slice assignment sets exactly that run to 255 |
| MockServer.FillRectangle | arterys_sdk/mock_server.py:121-122 | the `ogrid` assignment sets exactly the rectangle of slice s to 255 |
| MockServer.GrowingMask | arterys_sdk/mock_server.py:112-122 | the fill loop produces a fresh (depth, Rows, Columns) mask that is 255 exactly on each slice's rectangle, with the half-extents computed in binary64 as Python computes them |
| MockServer.ProbabilityMask3d | arterys_sdk/mock_server.py:89-124 | IndexError on no instances; otherwise one probability_mask part shaped by the instances, and one growing mask |
| MockServer.ProbabilityMask2d | arterys_sdk/mock_server.py:127-155 | one part per instance, in order, with its UID, width and height, and one fresh all-zero (Rows, Columns) mask each |
| LegacyMockServer.ProbabilityMask3d | mock_server.py:60-92 | the manifest shape comes from the instances but the mask's dimensions come from `json_input`; a missing key raises KeyError |
| LegacyMockServer.RequestHandler | mock_server.py:126-145 | dispatch on `inference_command`: box, 3-D, 2-D, or the empty reply for any other command; KeyError when the command is missing; for the 3-D command, IndexError on no instances, KeyError or ValueError from the `json_input` shape, and otherwise one fresh growing mask of that shape |
| LegacyMockServer.ShapesCanDisagree | mock_server.py:64-90 | for one 1x1 instance and depth 2 in `json_input`, the manifest says depth 1 while the mask has depth 2 |
| Cli.Os.Do | utils/cli_model.py:67-84 | every call into the operating system is logged, and fails as the environment decides |
| Cli.AttemptPrefix | utils/cli_model.py:39-57 | a sequence of steps runs a prefix of its plan and stops at the first failure, which is the failure of the last call made |
| Cli.AttemptAppend | utils/cli_model.py:39-57 | running two plans in sequence runs the second only when the first succeeds |
| Cli.PartPathsDistinct | utils/cli_model.py:76-80 | input parts i and j are written to different files `input_path/part{i}.dcm` |
| Cli.MakeDirs | utils/cli_model.py:67-69 | creates each cleanup path in order, stopping at the first failure |
| Cli.CleanupDirs | utils/cli_model.py:71-73 | removes each cleanup path in order, ignoring errors |
| Cli.WriteModelInput | utils/cli_model.py:76-80 | writes part i to `part{i}.dcm` in order, stopping at the first failure |
| Cli.InvokeCliModel | utils/cli_model.py:83-84 | makes the single subprocess call |
| Cli.ReadDirectory | utils/cli_model.py:95-107 | reads one walked directory's files in order, appending one part and one file per file and advancing the counter |
| Cli.ReadModelOutput | utils/cli_model.py:86-115 | the specified reads, and on success a protocol 1.0 manifest whose parts and files follow the walked paths |
| Cli.Run | utils/cli_model.py:39-64 | the log is the specified trace (steps until the first failure, then all the cleanup), and the result is the specified one |
| Cli.StepsInOrder | utils/cli_model.py:39-61 | the calls come in the order make dirs, write input, invoke, read output, clean up |
| Cli.CleanupAlways | utils/cli_model.py:58-61 | the trace always ends with removing every cleanup path, so every directory made is removed later |
| Cli.MakeDirsFirst | utils/cli_model.py:44-69 | every creation in the plan is of a cleanup path, in list order, before any other step |
| Cli.ManifestMatchesFiles | utils/cli_model.py:93-113 | one part and one file per output file, in the same order. Part i is labelled `sc-{i+1}`, has type dicom_secondary_capture, and carries that file's series and SOP UIDs; the protocol is 1.0 |
| ImageConversion.BinarisedIsNegation | utils/image_conversion.py:54-55 | uint8 `arr *= 255` wraps to (256 - v) mod 256, so a 0/1 mask becomes a 0/255 mask |
| ImageConversion.ClassMask | src/utils/image_conversion.py:55-62 | class mask k has the input's length and is element-wise the class voxel |
| ImageConversion.ClassMaskSet | utils/image_conversion.py:56-63 | class mask k is 255 exactly where the input is k+1 or already 255, and 0 elsewhere |
| ImageConversion.ClassMasksOverlapAt255 | arterys_sdk/utils/image_conversion.py:55-62 | two class masks overlap exactly on the voxels that were 255 |
| ImageConversion.LabelMask | arterys_sdk/utils/image_conversion.py:58-60 | the copy and two masked assignments give a fresh array equal to class mask k of the input |
| ImageConversion.MasksFromVolume | utils/image_conversion.py:49-65 | None for non-uint8. `binary` scales the array in place and returns `[arr]`. `multi_class` returns max(0, num_classes) distinct fresh masks and leaves the input alone. Any other type returns `[arr]` unchanged |
| ImageConversion.InvertedInvolution | utils/image_conversion.py:74-75 | `np.invert` keeps a pixel in its dtype's range and undoes itself |
| ImageConversion.ConvertedCases | utils/image_conversion.py:68-83 | non-MONOCHROME1 comes back unchanged; MONOCHROME1 with an 8 or 16-bit integer dtype becomes MONOCHROME2 with every pixel complemented; any other dtype raises RuntimeError |
| ImageConversion.ConvertedIdempotent | utils/image_conversion.py:70-81 | converting twice is converting once |
| ImageConversion.ConvertedInvertible | utils/image_conversion.py:74-75 | the conversion loses no pixel information |
| ImageConversion.Dataset.ConvertMonochrome1To2 | utils/image_conversion.py:68-83 | updates the dataset in place to the converted state and returns it; on RuntimeError the dataset is unchanged |
| TaggedLogging.Get | utils/tagged_logger.py:16 | looking a key up finds its entry, or reports that there is none |
| TaggedLogging.PutGet | utils/tagged_logger.py:41 | setting a key keeps keys distinct, changes only that key, and appends a new key at the end of insertion order |
| TaggedLogging.UpdateDict | utils/tagged_logger.py:41 | `dict.update` adds new keys, overwrites existing ones and leaves the others unchanged |
| TaggedLogging.UpdateGet | src/utils/tagged_logger.py:41 | updating with any entry list gives each key its last new value, or its old one |
| TaggedLogging.UpdateEmpty | utils/tagged_logger.py:12-16 | updating the empty dict with a dict copies it exactly |
| TaggedLogging.SortedTagsCorrect | utils/tagged_logger.py:28 | `sort_keys=True` lists each tag once, in strictly increasing key order |
| TaggedLogging.DumpsDependsOnContents | src/utils/tagged_logger.py:28 | the JSON prefix depends only on the tags' contents, not on their insertion order |
| TaggedLogging.JsonStringPrintable | utils/tagged_logger.py:28 | `json.dumps` with ASCII escaping writes every key and string value as printable ASCII |
| TaggedLogging.UntaggedMessage | utils/tagged_logger.py:24-28 | with no tags the message is `{} - msg` |
| TaggedLogging.TagsMethodShadowed | utils/tagged_logger.py:30-34 | calling `tags()` as written never returns the tags |
| TaggedLogging.TaggedLogger.constructor | utils/tagged_logger.py:8-22 | copies a tagged parent's tags, or starts empty, and wraps the innermost plain logger |
| TaggedLogging.TaggedLogger.Process | utils/tagged_logger.py:24-28 | kwargs pass through unchanged beside the tag-prefixed message |
| TaggedLogging.TaggedLogger.CallTagsAsWritten | utils/tagged_logger.py:30-34 | `tags()` raises TypeError: the instance attribute shadows the method |
| TaggedLogging.TaggedLogger.CurrentTags | utils/tagged_logger.py:30-34 | the intended `tags()` returns the logger's tags |
| TaggedLogging.TaggedLogger.AddTags | src/utils/tagged_logger.py:36-41 | the tags become the update of the old tags with the new ones; the wrapped logger is unchanged |
| TaggedLogging.TaggedLogger.Tag | src/utils/tagged_logger.py:43-50 | a fresh child holds the parent's tags updated with the new ones, wraps the same logger, and leaves the parent untouched |
| Common.NatToStringInjective | inference-test-tool/run.py:62 | different counters give different decimal field names |
| Common.ParseNatToString | utils/cli_model.py:103 | the decimal suffix of `sc-{i}` reads back as i |
| Common.OutputNameInjective | inference-test-tool/test_inference_boxes.py:43-44 | `{index}_{basename}.png` names differ whenever the indexes differ |

## Left out

- Loading files: reading DICOM files, converting images to DICOM, `get_pixels`, and decoding pixel data. An image is reduced to the record the code reads from it. Pixels are an abstract type loaded by a parameter.
- Floating point: positions, direction cosines and projections are exact reals. The "within 1e-3" norm test is an abstract `close` predicate. Float round-off in the numpy comparator is not modelled.
- Drawing: alpha blending, PNG writing, PIL font metrics and the float text position inside a box are parameters or left out. A drawing is recorded as its strokes or text placements.
- BoxOverlay.FontSize: whether PIL accepts the font size (including the size 0 of the mock box) is not modelled.
- Boxes missing a key: a box lacking `top_left`, `bottom_right` or `label` is not modelled; boxes are records with all four fields.
- SHA-256, JSON text and the seeded random generator: these are parameters. The model does not check that the gateway's `json.dumps` matches `TaggedLogging.Dumps`.
- HTTP and the multipart wire format: Flask routing and `make_response` headers, the `/healthcheck` route, the `requests.post` call, and the encoder and decoder byte format. Requests and replies are ordered lists of parts.
- Logging and timings: every logging call, including the gateway's and the mock models' tagged loggers, and the `timings` list in `Cli.Run`.
- Gateway.Serialize: reading `json_response['parts']` with no `parts` key is not modelled. `ndarray.tostring()` is the raw-bytes parameter.
- Gateway.DoInference: `MultipartDecoder` decodes every payload; a decoding failure is not modelled.
- `__main__` blocks, `parse_args`, `handle_exception` and the health-check handler.
- Exceptions inside the operating system that the source does not raise: `CleanupDirs` ignores errors, as `ignore_errors=True` does. A non-zero exit of the command-line model does not raise, and none is modelled.
- Cli.ReadModelOutput: the directory walk is a snapshot given by the environment. Reading one output file with `dcmread` and then `read()` is one read action. The two UID tags come from the environment's file record.
- The legacy `DCM_Image` has no `timepoint` attribute, so `generate_images_with_masks` on legacy images would raise AttributeError at inference-test-tool/test_inference_mask.py:62. The model gives every overlay image an optional timepoint.
- `_get_images_and_masks` on string arguments (loading a folder, `np.fromfile`): the model takes images and masks as lists.
- UploadStudy: the `count += 1` before `open()` in run.py:70-72 is modelled through the `Readable` predicate. A file that `dcmread` accepts but that `open` cannot read is not modelled separately.
- UploadStudy: saving `response.json` and the call into the preview writers are left out. The writers are modelled in their own modules.
- UploadStudy.ReorderCorrect: a UID with no image raises StopIteration (inference-test-tool/run.py:114), as the code does; the part is not skipped.
- MaskFilter.FilterMasksByBinaryType: masks are a list, so the `np.array` conversion and its shape checks are not modelled.
- ImageConversion.MasksFromVolume: NIfTI loading is left out. The array is flat, so the volume's shape is not modelled. In `multi_class` the masks are returned as a list rather than stacked with `np.array` (which, for num_classes <= 0, gives an empty float array).
- ImageConversion.Dataset.ConvertMonochrome1To2: `PixelData` is taken to be the bytes of `pixel_array`; `tobytes()` and pixel decoding are not modelled.
- `convert_dataset_to_bytes`, `load_nifti_file` and `convert_to_nifti` are library I/O.
- The request auditors and `request_handler_hf5.py` are not part of this model.
- TaggedLogging: keys are strings, and tag values are integers, strings, booleans and null; floats and nested containers are not modelled. `json.dumps` turns int, bool and None keys into strings of its own, and with `sort_keys=True` a dict whose keys mix types raises TypeError (utils/tagged_logger.py:28); neither is modelled.
- TaggedLogging.TaggedLogger.Process: the `%s` formatting of a message that is not a string, and the `LoggerAdapter` call path that reaches `process`, are not modelled.
- TaggedLogging.TaggedLogger.constructor: a TaggedLogger whose `logger` attribute was later set to another TaggedLogger is not modelled. The wrapped logger is typed as plain, so the unwrap loop runs at most once.
- SeriesOrder.EmitByTimepoint: `image.timepoint = t` (arterys_sdk/inference_test_tool/utils.py:123) sets the attribute on the caller's image objects; the model sets it on copies and returns them, so the change to the input objects is not modelled. The only `sort_images` call sites in the repository rebind their list to the result (inference-test-tool/run.py:38-39, inference-test-tool/test_inference_mask.py:30-31), so a caller that uses the returned list sees the same images either way.
- Binary64: float arithmetic follows binary64 round-to-nearest-even without overflow or subnormal numbers; neither can occur for image sides and slice counts below 2^53.
- MockServer.GrowingMask: the stops `mid + offset` are clipped to the image side. The clip changes nothing for sides below 2^53; above that, float rounding could push a stop past the edge, where numpy's index arrays would raise IndexError instead.
- MockServer.RectangleInImage: the rectangle's end is proved inside the image only for sides below 2^53; its start is proved for every side.
- MockServer.FloatOffset: one concrete input where float rounding lowers the offset is proved; other such inputs, such as s = 3, depth = 11, mid = 55, are not worked out.
- Concurrency of the Flask server is not modelled.

## Findings

| source | as written | input that shows it | evidently intended | confidence | as-written member | corrected member |
|---|---|---|---|---|---|---|
| utils/tagged_logger.py:30-34 | `__init__` assigns the instance attribute `self.tags = {}` (line 12), which shadows the method `tags`, so `logger.tags()` calls a dict and raises TypeError | `TaggedLogger(logging.getLogger('x')).tags()` | return the current tags | not executed | TaggedLogging.TaggedLogger.CallTagsAsWritten | TaggedLogging.TaggedLogger.CurrentTags |
