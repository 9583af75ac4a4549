/** The test tool's preview of classification labels: the study-level
    labels above the series-level labels of each image's series, laid out
    by integer counters ten pixels apart. Decoding, fonts and the PNG writer
    are collaborators; a drawing is recorded as its text placements. */
module LabelOverlay {
  import opened Common
  import opened Manifest

  /** An image of the preview: its path and the `SeriesInstanceUID` read
      from its file. */
  datatype LabelImage = LabelImage(path: string, seriesUid: string)

  /** `draw.text((x, y), text=...)`. */
  datatype Text = Text(x: int, y: int, text: string)

  /** A written preview: `"{index}_{basename}.png"` and its texts in drawing
      order. */
  datatype LabelPreview = LabelPreview(name: string, texts: seq<Text>)

  const SpacingY := 10
  const SpacingX := 5
  const Indent := 5

  const StudyHeading := "Study level classification prediction:"
  const SeriesHeading := "Series level classification prediction:"

  /** `f'{label}: {val}'`, the value already rendered by `str()`. */
  function LabelLine(entry: (string, string)): string
  {
    entry.0 + ": " + entry.1
  }

  /** The labels listed one per line from height `top` down, indented. */
  function LabelLines(labels: Labels, top: int): (r: seq<Text>)
    ensures |r| == |labels|
    ensures forall i :: 0 <= i < |labels| ==>
              r[i] == Text(SpacingX + Indent, top + SpacingY * i, LabelLine(labels[i]))
  {
    seq(|labels|, i requires 0 <= i < |labels| => Text(SpacingX + Indent, top + SpacingY * i, LabelLine(labels[i])))
  }

  /** A heading at height `top` followed by its labels on the lines below. */
  function Block(heading: string, labels: Labels, top: int): seq<Text>
  {
    [Text(SpacingX, top, heading)] + LabelLines(labels, top + SpacingY)
  }

  /** `json_response['series_ml_json'][uid]` when both keys are there, else
      no labels. */
  function SeriesLabels(response: Response, uid: string): Labels
  {
    if response.seriesMl.Some? && uid in response.seriesMl.value then response.seriesMl.value[uid] else []
  }

  /** Where every image's series block starts: below the study block drawn on
      image 0, or at the top when there is none. */
  function SeriesTop(response: Response): nat
  {
    if response.studyMl.Some? then SpacingY * (1 + |response.studyMl.value|) else 0
  }

  /** The preview of image k. */
  function LabelPreviewAt(images: seq<LabelImage>, response: Response, baseName: string -> string, k: nat): LabelPreview
    requires k < |images|
  {
    var study := if k == 0 && response.studyMl.Some? then Block(StudyHeading, response.studyMl.value, 0) else [];
    LabelPreview(OutputName(k, baseName(images[k].path)),
                 study + Block(SeriesHeading, SeriesLabels(response, images[k].seriesUid), SeriesTop(response)))
  }

  function LabelPreviews(images: seq<LabelImage>, response: Response, baseName: string -> string, n: nat): seq<LabelPreview>
    requires n <= |images|
  {
    seq(n, k requires 0 <= k < n => LabelPreviewAt(images, response, baseName, k))
  }

  /** The label loop: one indented line per label, each ten pixels below the
      one before. */
  method DrawLines(labels: Labels, y: int) returns (lines: seq<Text>, y': int)
    ensures lines == LabelLines(labels, y)
    ensures y' == y + SpacingY * |labels|
  {
    lines := [];
    y' := y;
    var i := 0;
    while i < |labels|
      invariant 0 <= i <= |labels|
      invariant lines == LabelLines(labels[..i], y)
      invariant y' == y + SpacingY * i
    {
      lines := lines + [Text(SpacingX + Indent, y', LabelLine(labels[i]))];
      y' := y' + SpacingY;
      i := i + 1;
    }
    assert labels[..i] == labels;
  }

  /** A heading and its labels, the counter moved one line past the last. */
  method DrawBlock(heading: string, labels: Labels, y: int) returns (texts: seq<Text>, y': int)
    ensures texts == Block(heading, labels, y)
    ensures y' == y + SpacingY * (1 + |labels|)
  {
    texts := [Text(SpacingX, y, heading)];
    y' := y + SpacingY;
    var lines;
    lines, y' := DrawLines(labels, y');
    texts := texts + lines;
  }

  /** The body of the image loop: the study block on image 0 only, then the
      series block at the height the study block left. */
  method DrawImage(images: seq<LabelImage>, response: Response, baseName: string -> string, index: nat,
                   studyLevelY: int)
    returns (preview: LabelPreview, studyLevelY': int)
    requires index < |images|
    requires studyLevelY == if index == 0 then 0 else SeriesTop(response)
    ensures preview == LabelPreviewAt(images, response, baseName, index)
    ensures studyLevelY' == SeriesTop(response)
  {
    var image := images[index];
    var study: seq<Text> := [];
    studyLevelY' := studyLevelY;
    if index == 0 && response.studyMl.Some? {
      study, studyLevelY' := DrawBlock(StudyHeading, response.studyMl.value, studyLevelY');
    }
    var seriesLabels: Labels := [];
    if response.seriesMl.Some? && image.seriesUid in response.seriesMl.value {
      seriesLabels := response.seriesMl.value[image.seriesUid];
    }
    var series, y := DrawBlock(SeriesHeading, seriesLabels, studyLevelY');
    preview := LabelPreview(OutputName(index, baseName(image.path)), study + series);
  }

  /** `generate_images_with_labels`: one preview per image. */
  method GenerateImagesWithLabels(images: seq<LabelImage>, response: Response, baseName: string -> string)
    returns (previews: seq<LabelPreview>)
    ensures previews == LabelPreviews(images, response, baseName, |images|)
  {
    var studyLevelY := 0;
    previews := [];
    var index := 0;
    while index < |images|
      invariant 0 <= index <= |images|
      invariant previews == LabelPreviews(images, response, baseName, index)
      invariant studyLevelY == if index == 0 then 0 else SeriesTop(response)
    {
      var preview;
      preview, studyLevelY := DrawImage(images, response, baseName, index, studyLevelY);
      assert LabelPreviews(images, response, baseName, index + 1) ==
             LabelPreviews(images, response, baseName, index) + [preview];
      previews := previews + [preview];
      index := index + 1;
    }
  }

  /** Study labels appear on image 0 alone and only when the response has
      `study_ml_json`; every image starts its series block with the heading
      at x=5 and the study block's height. */
  lemma StudyOnFirstImageOnly(images: seq<LabelImage>, response: Response, baseName: string -> string, k: nat)
    requires k < |images|
    ensures var t := LabelPreviewAt(images, response, baseName, k).texts;
            var n := if k == 0 && response.studyMl.Some? then 1 + |response.studyMl.value| else 0;
            && |t| == n + 1 + |SeriesLabels(response, images[k].seriesUid)|
            && (forall i :: 0 <= i < |t| ==> (t[i].text == StudyHeading <==> i == 0 && n > 0))
            && t[n] == Text(SpacingX, SeriesTop(response), SeriesHeading)
  {
    var t := LabelPreviewAt(images, response, baseName, k).texts;
    var first := k == 0 && response.studyMl.Some?;
    var study := if first then Block(StudyHeading, response.studyMl.value, 0) else [];
    var series := Block(SeriesHeading, SeriesLabels(response, images[k].seriesUid), SeriesTop(response));
    var n := |study|;
    assert t == study + series;
    forall i | 0 <= i < |t|
      ensures t[i].text == StudyHeading <==> i == 0 && n > 0
    {
      if i < n {
        assert t[i] == study[i];
        HeadingOnlyFirst(StudyHeading, response.studyMl.value, 0, i);
      } else {
        assert t[i] == series[i - n];
        HeadingOnlyFirst(SeriesHeading, SeriesLabels(response, images[k].seriesUid), SeriesTop(response), i - n);
      }
    }
  }

  /** Within a block only the first text can read as the study heading, and
      it does exactly when the block is the study block. */
  lemma HeadingOnlyFirst(heading: string, labels: Labels, top: int, i: nat)
    requires heading == StudyHeading || heading == SeriesHeading
    requires i <= |labels|
    ensures Block(heading, labels, top)[i].text == StudyHeading <==> i == 0 && heading == StudyHeading
  {
    if i > 0 {
      assert Block(heading, labels, top)[i] == LabelLines(labels, top + SpacingY)[i - 1];
      LineIsNoHeading(labels[i - 1]);
    } else {
      assert SeriesHeading[1] != StudyHeading[1];
    }
  }

  /** A label line `"{label}: {val}"` never reads as the study heading: the
      heading has no `": "` in it. */
  lemma LineIsNoHeading(e: (string, string))
    ensures LabelLine(e) != StudyHeading
  {
    var s := LabelLine(e);
    assert s[|e.0|] == ':' && s[|e.0| + 1] == ' ';
    assert forall j :: 0 <= j < |StudyHeading| - 1 ==> !(StudyHeading[j] == ':' && StudyHeading[j + 1] == ' ');
  }

  /** The series block of image 0 begins exactly one line below the last
      study line: nothing overlaps and no line is left empty. */
  lemma SeriesBelowStudy(images: seq<LabelImage>, response: Response, baseName: string -> string)
    requires 0 < |images| && response.studyMl.Some?
    ensures var t := LabelPreviewAt(images, response, baseName, 0).texts;
            var n := 1 + |response.studyMl.value|;
            && (forall i :: 0 <= i < |t| ==> t[i].y == SpacingY * i)
            && t[n].y == SeriesTop(response)
  {
  }

  /** The previews are named apart: `"{index}_..."` with distinct indices. */
  lemma LabelNamesDistinct(images: seq<LabelImage>, response: Response, baseName: string -> string, i: nat, j: nat)
    requires i < j < |images|
    ensures LabelPreviewAt(images, response, baseName, i).name != LabelPreviewAt(images, response, baseName, j).name
  {
    OutputNameInjective(i, j, baseName(images[i].path), baseName(images[j].path));
  }
}
