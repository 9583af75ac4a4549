/** The response manifest exchanged with the model ("parts", bounding boxes,
    classification labels), reduced to the fields the core reads or writes. */
module Manifest {
  import opened Common

  /** `binary_data_shape`; the 2-D manifests omit timepoints and depth. */
  datatype Shape = Shape(timepoints: Option<nat>, depth: Option<nat>, width: nat, height: nat)

  /** One entry of `parts`. Every key but `label` may be absent. */
  datatype Part = Part(
    labelText: string,
    binaryType: Option<string>,
    shape: Option<Shape>,
    seriesUid: Option<string>,
    sopUid: Option<string>,
    dicomImageUid: Option<string>)

  datatype Point = Point(x: int, y: int)

  /** One entry of `bounding_boxes_2d`. */
  datatype Box = Box(labelText: string, sopUid: string, topLeft: Point, bottomRight: Point)

  /** Free-form classification labels: `label: value` pairs in dict order,
      each value already rendered as Python's `str()` of it. */
  type Labels = seq<(string, string)>

  datatype Response = Response(
    protocolVersion: string,
    parts: seq<Part>,
    boxes: Option<seq<Box>>,
    seriesMl: Option<map<string, Labels>>,
    studyMl: Option<Labels>)

  /** The DICOM-carrying binary types that the repository's tests use for the
      constants module that is not part of this model. */
  const TestDicomBinaryTypes: set<string> :=
    {"dicom_secondary_capture", "dicom", "dicom_structured_report", "dicom_gsps"}

  predicate IsDicomPart(p: Part, dicomTypes: set<string>)
  {
    p.binaryType.Some? && p.binaryType.value in dicomTypes
  }

  predicate AllTyped(parts: seq<Part>)
  {
    forall i :: 0 <= i < |parts| ==> parts[i].binaryType.Some?
  }

  function EmptyResponse(parts: seq<Part>): Response
  {
    Response("1.0", parts, None, None, None)
  }
}
