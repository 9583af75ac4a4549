/** The older test tool's ordering of instances: one stable sort of all
    images along the slice normal of the first image, with no grouping by
    series and no timepoints. */
module LegacySort {
  import opened Common
  import opened Geometry
  import opened Sorting

  /** `DCM_Image`: the instance UID, the optional position and orientation,
      and the file path. */
  datatype LegacyImage = LegacyImage(
    instanceUid: string,
    position: Option<Vec3>,
    orientation: Option<Orientation>,
    path: string)

  /** `DCM_Image.direction()`: absent exactly when the orientation is absent,
      otherwise the normal of the two direction cosines. */
  function Direction(img: LegacyImage): (d: Option<Vec3>)
    ensures d.None? <==> img.orientation.None?
    ensures d.Some? ==> d.value == Normal(img.orientation.value)
    ensures d.Some? ==> Dot(d.value, img.orientation.value.row) == 0.0
    ensures d.Some? ==> Dot(d.value, img.orientation.value.col) == 0.0
  {
    if img.orientation.None? then None else Some(Normal(img.orientation.value))
  }

  /** The comparator key for every image: `dot(position - pos0, direction)`
      with pos0 and direction taken from image 0. An image without a
      position makes `np.subtract` fail. */
  function Projection(pos0: Vec3, dir: Vec3): LegacyImage -> real
  {
    (img: LegacyImage) => if img.position.Some? then Dot(Sub(img.position.value, pos0), dir) else 0.0
  }

  predicate AllPositioned(images: seq<LegacyImage>)
  {
    forall i :: 0 <= i < |images| ==> images[i].position.Some?
  }

  /** `sort_images`: an empty list has no image 0 (IndexError); without a
      position or direction on image 0 the list comes back as it is; an
      image without a position breaks the comparator (TypeError). */
  function SortImages(images: seq<LegacyImage>): (r: Result<seq<LegacyImage>>)
    ensures r.Ok? ==> |r.value| == |images|
  {
    if |images| == 0 then Err(IndexError)
    else if images[0].position.None? || Direction(images[0]).None? then Ok(images)
    else if !AllPositioned(images) then Err(TypeError)
    else
      RealLeIsTotalOrder();
      SortByCorrect(images, ProjectionOf(images), RealLe);
      Ok(SortBy(images, ProjectionOf(images), RealLe))
  }

  function ProjectionOf(images: seq<LegacyImage>): LegacyImage -> real
    requires |images| > 0 && images[0].position.Some? && images[0].orientation.Some?
  {
    Projection(images[0].position.value, Normal(images[0].orientation.value))
  }

  /** Every failure and the unchanged case, by the first image. */
  lemma SortImagesOutcomes(images: seq<LegacyImage>)
    ensures SortImages(images) == Err(IndexError) <==> |images| == 0
    ensures |images| > 0 && (images[0].position.None? || images[0].orientation.None?) ==>
              SortImages(images) == Ok(images)
    ensures SortImages(images) == Err(TypeError) <==>
              |images| > 0 && images[0].position.Some? && images[0].orientation.Some? && !AllPositioned(images)
  {
  }

  /** When the sort runs, its result is a permutation of the input in which
      the projection onto image 0's normal never decreases. */
  lemma SortImagesOrdered(images: seq<LegacyImage>)
    requires |images| > 0 && images[0].position.Some? && images[0].orientation.Some?
    requires AllPositioned(images)
    ensures SortImages(images).Ok?
    ensures multiset(SortImages(images).value) == multiset(images)
    ensures forall i, j :: 0 <= i < j < |images| ==>
              ProjectionOf(images)(SortImages(images).value[i]) <= ProjectionOf(images)(SortImages(images).value[j])
  {
    RealLeIsTotalOrder();
    SortByCorrect(images, ProjectionOf(images), RealLe);
  }

  /** Stability: images with the same projection keep their input order, so
      images of different series at one position stay as loaded. */
  lemma SortImagesStable(images: seq<LegacyImage>, v: real)
    requires |images| > 0 && images[0].position.Some? && images[0].orientation.Some?
    requires AllPositioned(images)
    ensures SortImages(images).Ok?
    ensures Filter(SortImages(images).value, SameKey(ProjectionOf(images), v)) ==
            Filter(images, SameKey(ProjectionOf(images), v))
  {
    RealLeIsTotalOrder();
    SortByStable(images, ProjectionOf(images), RealLe, v);
  }

  /** Sorting an already ordered list changes nothing: the result depends
      only on image 0's position and normal, never on series. */
  lemma SortImagesSortedInput(images: seq<LegacyImage>)
    requires |images| > 0 && images[0].position.Some? && images[0].orientation.Some?
    requires AllPositioned(images)
    requires forall i, j :: 0 <= i < j < |images| ==> ProjectionOf(images)(images[i]) <= ProjectionOf(images)(images[j])
    ensures SortImages(images) == Ok(images)
  {
    RealLeIsTotalOrder();
    SortBySorted(images, ProjectionOf(images), RealLe);
  }
}
