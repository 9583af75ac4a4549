/** Mask post-processing after a NIfTI volume is loaded, and the MONOCHROME1
    to MONOCHROME2 conversion of a DICOM dataset. A loaded volume is a flat
    array of its voxel values with its numpy dtype; numpy's element-wise
    assignments (`arr *= 255`, `a[cond] = v`) are aggregate `forall`
    statements over that array. */
module ImageConversion {
  import opened Common

  /** The numpy dtypes the code tells apart; any other one is `OtherDType`. */
  datatype DType = Uint8 | Int8 | Uint16 | Int16 | OtherDType(name: string)

  /** The values an element of the dtype can hold. */
  predicate InRange(t: DType, v: int)
  {
    match t
    case Uint8 => 0 <= v < 0x100
    case Int8 => -0x80 <= v < 0x80
    case Uint16 => 0 <= v < 0x1_0000
    case Int16 => -0x8000 <= v < 0x8000
    case OtherDType(_) => true
  }

  const ProbabilityMask := "probability_mask"
  const BinaryMask := "binary"
  const MultiClass := "multi_class"

  // ---------------------------------------------------------------------
  // get_masks_from_nifti_file, after load_nifti_file

  /** `v * 255` on a uint8 element: the product wraps modulo 256. */
  function Binarised(v: int): int
  {
    (v * 255) % 0x100
  }

  /** The uint8 multiplication by 255 is negation modulo 256: a 0/1 mask
      becomes a 0/255 mask, and every other value v becomes 256 - v. */
  lemma BinarisedIsNegation(v: int)
    requires 0 <= v < 0x100
    ensures Binarised(v) == (0x100 - v) % 0x100
    ensures v == 0 ==> Binarised(v) == 0
    ensures v > 0 ==> Binarised(v) == 0x100 - v
    ensures 0 <= Binarised(v) < 0x100
  {
    if v > 0 {
      assert v * 255 == 0x100 * (v - 1) + (0x100 - v);
      ModOfMultiplePlus(v - 1, 0x100 - v);
    }
  }

  lemma ModOfMultiplePlus(q: nat, r: int)
    requires 0 <= r < 0x100
    ensures (0x100 * q + r) % 0x100 == r
  {
  }

  /** Class mask `classIndex` of a multi-class volume at one voxel: 255
      where the voxel is `classIndex + 1`, and also where it already is 255;
      0 elsewhere. */
  function ClassVoxel(v: int, classIndex: nat): int
  {
    if v == classIndex + 1 || v == 0xFF then 0xFF else 0
  }

  function ClassMask(voxels: seq<int>, classIndex: nat): (m: seq<int>)
    ensures |m| == |voxels|
    ensures forall i :: 0 <= i < |voxels| ==> m[i] == ClassVoxel(voxels[i], classIndex)
  {
    seq(|voxels|, i requires 0 <= i < |voxels| => ClassVoxel(voxels[i], classIndex))
  }

  /** Every class mask is a 0/255 mask that is set exactly where the voxel
      is the class's value (classIndex + 1) or 255. */
  lemma ClassMaskSet(voxels: seq<int>, classIndex: nat, i: nat)
    requires i < |voxels|
    ensures ClassMask(voxels, classIndex)[i] in {0, 0xFF}
    ensures ClassMask(voxels, classIndex)[i] == 0xFF <==> voxels[i] == classIndex + 1 || voxels[i] == 0xFF
  {
  }

  /** Two different class masks overlap only on voxels that were 255: such
      a voxel is set in every class mask. */
  lemma ClassMasksOverlapAt255(voxels: seq<int>, k: nat, l: nat, i: nat)
    requires k != l && i < |voxels|
    ensures ClassMask(voxels, k)[i] == 0xFF && ClassMask(voxels, l)[i] == 0xFF <==> voxels[i] == 0xFF
  {
  }

  /** `np.copy(arr)`, then `label_arr[arr == label + 1] = 255`, then
      `label_arr[label_arr != 255] = 0`. */
  method LabelMask(arr: array<int>, classIndex: nat) returns (labelArr: array<int>)
    ensures fresh(labelArr)
    ensures labelArr[..] == ClassMask(arr[..], classIndex)
  {
    labelArr := new int[arr.Length](i reads arr requires 0 <= i < arr.Length => arr[i]);
    forall i | 0 <= i < labelArr.Length && arr[i] == classIndex + 1 {
      labelArr[i] := 0xFF;
    }
    forall i | 0 <= i < labelArr.Length && labelArr[i] != 0xFF {
      labelArr[i] := 0;
    }
  }

  /** The transform `get_masks_from_nifti_file` applies to the loaded array:
      None for a non-uint8 array; for `'binary'` the array itself, scaled in
      place; for `'multi_class'` one fresh mask per class with the input left
      as it was; for `'probability_mask'` and any other `data_type` the array
      itself unchanged. */
  method MasksFromVolume(arr: array<int>, dtype: DType, dataType: string, numClasses: int)
    returns (r: Option<seq<array<int>>>)
    requires forall i :: 0 <= i < arr.Length ==> InRange(dtype, arr[i])
    modifies arr
    ensures dtype != Uint8 ==> r.None?
    ensures dtype == Uint8 ==> r.Some?
    ensures dtype == Uint8 && dataType == BinaryMask ==>
              r.value == [arr] && arr[..] == seq(arr.Length, i requires 0 <= i < arr.Length => Binarised(old(arr[i])))
    ensures dtype == Uint8 && dataType == MultiClass ==>
              && |r.value| == (if numClasses < 0 then 0 else numClasses)
              && (forall k :: 0 <= k < |r.value| ==> fresh(r.value[k]) && r.value[k][..] == ClassMask(arr[..], k))
              && (forall j, k :: 0 <= j < k < |r.value| ==> r.value[j] != r.value[k])
    ensures dtype == Uint8 && dataType != BinaryMask && dataType != MultiClass ==> r.value == [arr]
    ensures dtype != Uint8 || dataType != BinaryMask ==> arr[..] == old(arr[..])
  {
    if dtype != Uint8 {
      return None;
    }
    if dataType == BinaryMask {
      forall i | 0 <= i < arr.Length {
        arr[i] := Binarised(arr[i]);
      }
    } else if dataType == MultiClass {
      var output: seq<array<int>> := [];
      var classIndex := 0;
      while classIndex < numClasses
        invariant 0 <= classIndex && |output| == classIndex
        invariant numClasses >= 0 ==> classIndex <= numClasses
        invariant numClasses < 0 ==> classIndex == 0
        invariant arr[..] == old(arr[..])
        invariant forall k :: 0 <= k < classIndex ==> fresh(output[k]) && output[k][..] == ClassMask(arr[..], k)
        invariant forall j, k :: 0 <= j < k < classIndex ==> output[j] != output[k]
      {
        var labelArr := LabelMask(arr, classIndex);
        output := output + [labelArr];
        classIndex := classIndex + 1;
      }
      return Some(output);
    }
    return Some([arr]);
  }

  // ---------------------------------------------------------------------
  // convert_monochrome_1to2

  /** `np.invert` on one pixel: the bitwise complement, max - v for an
      unsigned dtype and -v - 1 for a signed one. */
  function Inverted(t: DType, v: int): int
  {
    match t
    case Uint8 => 0xFF - v
    case Uint16 => 0xFFFF - v
    case _ => -v - 1
  }

  /** The bitwise complement keeps a pixel in its dtype's range and undoes
      itself. */
  lemma InvertedInvolution(t: DType, v: int)
    requires t in {Uint8, Int8, Uint16, Int16} && InRange(t, v)
    ensures InRange(t, Inverted(t, v))
    ensures Inverted(t, Inverted(t, v)) == v
  {
  }

  /** The attributes of a dataset the conversion reads and writes; `pixels`
      is `pixel_array`, and `PixelData` is taken to be its bytes. */
  datatype Image = Image(interpretation: string, dtype: DType, pixels: seq<int>)

  const Monochrome1 := "MONOCHROME1"
  const Monochrome2 := "MONOCHROME2"

  function IsIntegerDType(t: DType): bool
  {
    t in {Uint8, Int8, Uint16, Int16}
  }

  /** The dataset after the conversion, or the error it raises. */
  function Converted(image: Image): Result<Image>
  {
    if image.interpretation != Monochrome1 then Ok(image)
    else if !IsIntegerDType(image.dtype) then Err(RuntimeError)
    else Ok(Image(Monochrome2, image.dtype,
                  seq(|image.pixels|, i requires 0 <= i < |image.pixels| => Inverted(image.dtype, image.pixels[i]))))
  }

  /** A dataset not in MONOCHROME1 is returned as it is; a MONOCHROME1 one
      with 8- or 16-bit integer pixels comes back in MONOCHROME2 with every
      pixel complemented; any other pixel type raises RuntimeError. */
  lemma ConvertedCases(image: Image)
    ensures image.interpretation != Monochrome1 ==> Converted(image) == Ok(image)
    ensures image.interpretation == Monochrome1 ==>
              (Converted(image).Err? <==> !IsIntegerDType(image.dtype)) &&
              (Converted(image).Err? ==> Converted(image).error == RuntimeError)
    ensures Converted(image).Ok? ==>
              var out := Converted(image).value;
              && out.interpretation != Monochrome1
              && out.dtype == image.dtype
              && |out.pixels| == |image.pixels|
              && (image.interpretation == Monochrome1 ==>
                    forall i :: 0 <= i < |image.pixels| ==> out.pixels[i] == Inverted(image.dtype, image.pixels[i]))
  {
  }

  /** Converting twice is converting once. */
  lemma ConvertedIdempotent(image: Image)
    requires Converted(image).Ok?
    ensures Converted(Converted(image).value) == Converted(image)
  {
  }

  /** Complementing the pixels of a MONOCHROME1 image loses nothing: the
      pixels of the original are the complements of the converted ones. */
  lemma ConvertedInvertible(image: Image)
    requires image.interpretation == Monochrome1 && IsIntegerDType(image.dtype)
    requires forall i :: 0 <= i < |image.pixels| ==> InRange(image.dtype, image.pixels[i])
    ensures var out := Converted(image).value.pixels;
            forall i :: 0 <= i < |image.pixels| ==>
              InRange(image.dtype, out[i]) && Inverted(image.dtype, out[i]) == image.pixels[i]
  {
    var out := Converted(image).value.pixels;
    forall i | 0 <= i < |image.pixels|
      ensures InRange(image.dtype, out[i]) && Inverted(image.dtype, out[i]) == image.pixels[i]
    {
      InvertedInvolution(image.dtype, image.pixels[i]);
    }
  }

  /** A pydicom dataset, updated in place by the conversion. */
  class Dataset {
    var photometricInterpretation: string
    var dtype: DType
    var pixels: seq<int>

    constructor (interpretation: string, dtype: DType, pixels: seq<int>)
      ensures State() == Image(interpretation, dtype, pixels)
    {
      this.photometricInterpretation := interpretation;
      this.dtype := dtype;
      this.pixels := pixels;
    }

    function State(): Image
      reads this
    {
      Image(photometricInterpretation, dtype, pixels)
    }

    /** `convert_monochrome_1to2(dcm)`: rewrites the pixels and the
        interpretation of `dcm` and returns it, or raises and leaves it as it
        was. */
    method ConvertMonochrome1To2() returns (r: Result<Dataset>)
      modifies this
      ensures Converted(old(State())).Ok? ==> r == Ok(this) && State() == Converted(old(State())).value
      ensures Converted(old(State())).Err? ==> r == Err(RuntimeError) && State() == old(State())
    {
      if photometricInterpretation == Monochrome1 {
        var t, p := dtype, pixels;
        if IsIntegerDType(t) {
          pixels := seq(|p|, i requires 0 <= i < |p| => Inverted(t, p[i]));
        } else {
          return Err(RuntimeError);
        }
        photometricInterpretation := Monochrome2;
      }
      return Ok(this);
    }
  }
}
