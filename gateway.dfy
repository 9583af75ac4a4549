/** The inference gateway: serialisation of model outputs into typed
    multipart elements, the table of inference routes, and the request
    pipeline that digests the request, calls the model and assembles the
    response fields. HTTP transport, the multipart wire format, JSON text and
    SHA-256 are collaborators passed in as functions. */
module Gateway {
  import opened Common
  import opened Sorting
  import opened Manifest

  // ---------------------------------------------------------------------
  // InferenceSerializer

  /** What an element carries: text, a binary component handed through as it
      is (a DICOM file buffer), or raw bytes (`ndarray.tostring()`). */
  datatype Payload<C> = Text(text: string) | Blob(blob: C) | Raw(bytes: Bytes)

  /** One serialised element: its MIME type and its data. */
  datatype Elem<C> = Elem(mime: string, payload: Payload<C>)

  /** The array-valued binary types, sent as raw bytes. */
  const ArrayTypes: set<string> := {"probability_mask", "heatmap", "numeric_label_mask", "boolean_mask"}

  /** The conversion of one component by its binary type. */
  function Convert<C>(binaryType: string, blob: C, raw: C -> Bytes): (r: Result<Elem<C>>)
    ensures binaryType == "dicom_secondary_capture" ==> r == Ok(Elem("application/dicom", Blob(blob)))
    ensures binaryType in ArrayTypes ==> r == Ok(Elem("application/binary", Raw(raw(blob))))
    ensures binaryType != "dicom_secondary_capture" && binaryType !in ArrayTypes ==> r == Err(NotImplementedError)
  {
    if binaryType in {"dicom_secondary_capture"} then Ok(Elem("application/dicom", Blob(blob)))
    else if binaryType in ArrayTypes then Ok(Elem("application/binary", Raw(raw(blob))))
    else Err(NotImplementedError)
  }

  /** The serializer's loop as a recursion over the zipped lists. `prev` is
      the value left in the loop variable `binary_type`: a part without a
      `binary_type` logs the KeyError and reuses it, and before any
      assignment the name is unbound. */
  function SerializeSpec<C>(parts: seq<Part>, blobs: seq<C>, raw: C -> Bytes, prev: Option<string>)
    : Result<seq<Elem<C>>>
    decreases |parts|
  {
    if |parts| == 0 || |blobs| == 0 then Ok([])
    else
      var ty := if parts[0].binaryType.Some? then parts[0].binaryType else prev;
      if ty.None? then Err(UnboundLocalError)
      else
        match Convert(ty.value, blobs[0], raw)
        case Err(e) => Err(e)
        case Ok(elem) => Prepend([elem], SerializeSpec(parts[1..], blobs[1..], raw, ty))
  }

  /** Output produced so far followed by the outcome of the rest. */
  function Prepend<T>(done: seq<T>, rest: Result<seq<T>>): Result<seq<T>>
  {
    match rest
    case Ok(s) => Ok(done + s)
    case Err(e) => Err(e)
  }

  lemma PrependPrepend<T>(a: seq<T>, b: seq<T>, rest: Result<seq<T>>)
    ensures Prepend(a, Prepend(b, rest)) == Prepend(a + b, rest)
  {
    if rest.Ok? {
      AppendAssoc(a, b, rest.value);
    }
  }

  function Min(a: nat, b: nat): nat
  {
    if a <= b then a else b
  }

  /** The binary type the loop body acts on at position i: the part's own,
      else the one left behind by the nearest earlier part that had one,
      else `prev`. */
  function EffectiveType(parts: seq<Part>, prev: Option<string>, i: nat): Option<string>
    requires i < |parts|
  {
    if parts[i].binaryType.Some? then parts[i].binaryType
    else if i == 0 then prev
    else EffectiveType(parts, prev, i - 1)
  }

  lemma {:induction false} EffectiveShift(parts: seq<Part>, prev: Option<string>, i: nat)
    requires i + 1 < |parts|
    ensures EffectiveType(parts[1..], EffectiveType(parts, prev, 0), i) == EffectiveType(parts, prev, i + 1)
  {
    if parts[i + 1].binaryType.None? && i > 0 {
      EffectiveShift(parts, prev, i - 1);
    }
  }

  /** Every zipped pair has a usable binary type. */
  ghost predicate Convertible<C>(parts: seq<Part>, blobs: seq<C>, raw: C -> Bytes, prev: Option<string>)
  {
    forall i :: 0 <= i < Min(|parts|, |blobs|) ==>
      EffectiveType(parts, prev, i).Some? && Convert(EffectiveType(parts, prev, i).value, blobs[i], raw).Ok?
  }

  /** The serializer succeeds exactly when every zipped pair is
      convertible. */
  lemma {:induction false} SerializeSucceeds<C>(parts: seq<Part>, blobs: seq<C>, raw: C -> Bytes, prev: Option<string>)
    ensures SerializeSpec(parts, blobs, raw, prev).Ok? <==> Convertible(parts, blobs, raw, prev)
    decreases |parts|
  {
    if |parts| > 0 && |blobs| > 0 {
      var ty := EffectiveType(parts, prev, 0);
      var parts', blobs' := parts[1..], blobs[1..];
      SerializeSucceeds(parts', blobs', raw, ty);
      if Convertible(parts, blobs, raw, prev) {
        assert ty.Some? && Convert(ty.value, blobs[0], raw).Ok?;
        forall i | 0 <= i < Min(|parts'|, |blobs'|)
          ensures EffectiveType(parts', ty, i).Some? && Convert(EffectiveType(parts', ty, i).value, blobs'[i], raw).Ok?
        {
          EffectiveShift(parts, prev, i);
          assert blobs'[i] == blobs[i + 1];
        }
      } else if ty.Some? && Convert(ty.value, blobs[0], raw).Ok? {
        var j :| 0 <= j < Min(|parts|, |blobs|) &&
                 !(EffectiveType(parts, prev, j).Some? && Convert(EffectiveType(parts, prev, j).value, blobs[j], raw).Ok?);
        EffectiveShift(parts, prev, j - 1);
        assert blobs'[j - 1] == blobs[j];
      }
    }
  }

  lemma {:induction false} SerializeLength<C>(parts: seq<Part>, blobs: seq<C>, raw: C -> Bytes, prev: Option<string>)
    requires SerializeSpec(parts, blobs, raw, prev).Ok?
    ensures |SerializeSpec(parts, blobs, raw, prev).value| == Min(|parts|, |blobs|)
    decreases |parts|
  {
    if |parts| > 0 && |blobs| > 0 {
      SerializeLength(parts[1..], blobs[1..], raw, EffectiveType(parts, prev, 0));
    }
  }

  /** A successful run yields exactly min(len(parts), len(components))
      elements, element i being component i converted by the binary type in
      force at position i. */
  lemma {:induction false} SerializeAt<C>(parts: seq<Part>, blobs: seq<C>, raw: C -> Bytes, prev: Option<string>, i: nat)
    requires SerializeSpec(parts, blobs, raw, prev).Ok? && i < Min(|parts|, |blobs|)
    ensures |SerializeSpec(parts, blobs, raw, prev).value| == Min(|parts|, |blobs|)
    ensures EffectiveType(parts, prev, i).Some?
    ensures Convert(EffectiveType(parts, prev, i).value, blobs[i], raw).Ok?
    ensures SerializeSpec(parts, blobs, raw, prev).value[i] ==
            Convert(EffectiveType(parts, prev, i).value, blobs[i], raw).value
    decreases i
  {
    SerializeLength(parts, blobs, raw, prev);
    var ty := EffectiveType(parts, prev, 0);
    if i > 0 {
      SerializeAt(parts[1..], blobs[1..], raw, ty, i - 1);
      EffectiveShift(parts, prev, i - 1);
      assert blobs[1..][i - 1] == blobs[i];
    }
  }

  lemma {:induction false} SerializeNeverUnbound<C>(parts: seq<Part>, blobs: seq<C>, raw: C -> Bytes, x: string)
    ensures SerializeSpec(parts, blobs, raw, Some(x)) != Err(UnboundLocalError)
    decreases |parts|
  {
    if |parts| > 0 && |blobs| > 0 {
      var ty := if parts[0].binaryType.Some? then parts[0].binaryType else Some(x);
      SerializeNeverUnbound(parts[1..], blobs[1..], raw, ty.value);
    }
  }

  lemma {:induction false} SerializeErrorKinds<C>(parts: seq<Part>, blobs: seq<C>, raw: C -> Bytes, prev: Option<string>)
    ensures SerializeSpec(parts, blobs, raw, prev).Err? ==>
              SerializeSpec(parts, blobs, raw, prev).error in {UnboundLocalError, NotImplementedError}
    decreases |parts|
  {
    if |parts| > 0 && |blobs| > 0 {
      var ty := if parts[0].binaryType.Some? then parts[0].binaryType else prev;
      SerializeErrorKinds(parts[1..], blobs[1..], raw, ty);
    }
  }

  /** The generator raises only NotImplementedError (an unsupported type,
      `'dicom'` included) or, when the first part lacks `binary_type`,
      UnboundLocalError; a later untyped part silently reuses the type of
      the part before it. */
  lemma SerializeErrors<C>(parts: seq<Part>, blobs: seq<C>, raw: C -> Bytes)
    ensures SerializeSpec(parts, blobs, raw, None) == Err(UnboundLocalError) <==>
              Min(|parts|, |blobs|) > 0 && parts[0].binaryType.None?
    ensures SerializeSpec(parts, blobs, raw, None).Err? ==>
              SerializeSpec(parts, blobs, raw, None).error in {UnboundLocalError, NotImplementedError}
  {
    SerializeErrorKinds(parts, blobs, raw, None);
    if |parts| > 0 && |blobs| > 0 && parts[0].binaryType.Some? {
      var ty := parts[0].binaryType;
      SerializeNeverUnbound(parts[1..], blobs[1..], raw, ty.value);
    }
  }

  /** `InferenceSerializer.__call__`, run to exhaustion: one element per
      zipped (part, component) pair, or the exception the generator raises. */
  method Serialize<C>(parts: seq<Part>, blobs: seq<C>, raw: C -> Bytes) returns (r: Result<seq<Elem<C>>>)
    ensures r == SerializeSpec(parts, blobs, raw, None)
  {
    var n := Min(|parts|, |blobs|);
    var out: seq<Elem<C>> := [];
    var binaryType: Option<string> := None;
    var i := 0;
    assert parts[0..] == parts && blobs[0..] == blobs;
    assert Prepend([], SerializeSpec(parts, blobs, raw, None)) == SerializeSpec(parts, blobs, raw, None) by {
      if SerializeSpec(parts, blobs, raw, None).Ok? {
        assert [] + SerializeSpec(parts, blobs, raw, None).value == SerializeSpec(parts, blobs, raw, None).value;
      }
    }
    while i < n
      invariant 0 <= i <= n
      invariant SerializeSpec(parts, blobs, raw, None) ==
                Prepend(out, SerializeSpec(parts[i..], blobs[i..], raw, binaryType))
    {
      assert parts[i..][1..] == parts[i + 1..] && blobs[i..][1..] == blobs[i + 1..];
      if parts[i].binaryType.Some? {
        binaryType := parts[i].binaryType;
      }
      if binaryType.None? {
        return Err(UnboundLocalError);
      }
      var elem := Convert(binaryType.value, blobs[i], raw);
      if elem.Err? {
        return Err(elem.error);
      }
      PrependPrepend(out, [elem.value], SerializeSpec(parts[i + 1..], blobs[i + 1..], raw, binaryType));
      out := out + [elem.value];
      i := i + 1;
    }
    assert |parts[i..]| == 0 || |blobs[i..]| == 0;
    assert out + [] == out;
    r := Ok(out);
  }

  // ---------------------------------------------------------------------
  // Gateway.add_inference_route

  /** The gateway's route bookkeeping: `_model_routes` and the URL rules
      registered with the web framework, in registration order. */
  class RouteTable<F> {
    var modelRoutes: map<string, F>
    var urlRules: seq<string>

    /** `/ping` is registered first; after it come the inference routes,
        each once, exactly the keys of `modelRoutes`. */
    ghost predicate Valid()
      reads this
    {
      && |urlRules| > 0 && urlRules[0] == "/ping"
      && (forall r :: r in modelRoutes <==> r in urlRules[1..])
      && (forall i, j :: 1 <= i < j < |urlRules| ==> urlRules[i] != urlRules[j])
    }

    constructor ()
      ensures modelRoutes == map[] && urlRules == ["/ping"]
      ensures Valid()
    {
      modelRoutes := map[];
      urlRules := ["/ping"];
    }

    /** A route already present raises ValueError and changes nothing;
        otherwise exactly that route is added and the rest is kept. */
    method AddInferenceRoute(route: string, modelFn: F) returns (r: Result<()>)
      requires Valid()
      modifies this
      ensures Valid()
      ensures route in old(modelRoutes) ==>
                r == Err(ValueError) && modelRoutes == old(modelRoutes) && urlRules == old(urlRules)
      ensures route !in old(modelRoutes) ==>
                && r == Ok(())
                && modelRoutes == old(modelRoutes)[route := modelFn]
                && urlRules == old(urlRules) + [route]
    {
      if route in modelRoutes {
        return Err(ValueError);
      }
      assert route !in urlRules[1..];
      modelRoutes := modelRoutes[route := modelFn];
      urlRules := urlRules + [route];
      assert urlRules[1..] == old(urlRules)[1..] + [route];
      r := Ok(());
    }
  }

  // ---------------------------------------------------------------------
  // Gateway._do_inference and Gateway._make_field_tuple

  /** The parts of a `multipart/related` request after decoding, with the
      header data the gateway reads. */
  datatype Request = Request(
    contentType: string,
    mimetypeParams: map<string, string>,
    boundary: string,
    parts: seq<Bytes>)

  /** A MultipartEncoder field: `(name, (filename, data, content_type))`, or
      the 4-tuple with extra headers. */
  datatype Field<C> = Field(
    name: string,
    fileName: string,
    content: Payload<C>,
    contentType: string,
    headers: Option<map<string, string>>)

  datatype Reply<C> =
    | Plain(status: nat, message: string)
    | Multipart(status: nat, contentType: string, fields: seq<Field<C>>)

  /** The library code the pipeline calls: SHA-256 as a hex digest of the
      bytes fed to it, JSON decoding of a part's text in a given charset,
      JSON encoding of the response, UTF-8 encoding, and the raw bytes of a
      binary component. */
  datatype Collaborators<J, !C> = Collaborators(
    sha256Hex: Bytes -> string,
    loads: (string, Bytes) -> Option<J>,
    dumps: Response -> string,
    utf8: string -> Bytes,
    raw: C -> Bytes)

  predicate StartsWith(s: string, prefix: string)
  {
    |prefix| <= |s| && s[..|prefix|] == prefix
  }

  /** The request charset, `utf-8` when the header gives none. */
  function Charset(params: map<string, string>): (enc: string)
    ensures "charset" in params ==> enc == params["charset"]
    ensures "charset" !in params ==> enc == "utf-8"
  {
    if "charset" in params then params["charset"] else "utf-8"
  }

  /** `_make_field_tuple`: the field name doubles as the file name, and the
      headers are kept only when given and non-empty. */
  function MakeFieldTuple<C>(name: string, content: Payload<C>, contentType: string,
                             headers: Option<map<string, string>>): (f: Field<C>)
    ensures f.name == name && f.fileName == name
    ensures f.content == content && f.contentType == contentType
    ensures f.headers.Some? <==> headers.Some? && |headers.value| > 0
    ensures f.headers.Some? ==> f.headers == headers
  {
    if headers.Some? && |headers.value| > 0 then Field(name, name, content, contentType, headers)
    else Field(name, name, content, contentType, None)
  }

  function ElemName(i: nat): string
  {
    "elem_" + NatToString(i)
  }

  /** `elem_0 .. elem_{n-1}`, one per serialised element, in order. */
  function ElemFields<C>(elems: seq<Elem<C>>): (fs: seq<Field<C>>)
    ensures |fs| == |elems|
  {
    seq(|elems|, i requires 0 <= i < |elems| => MakeFieldTuple(ElemName(i), elems[i].payload, elems[i].mime, None))
  }

  function ResponseFields<C>(json: string, elems: seq<Elem<C>>, hashes: string): seq<Field<C>>
  {
    [MakeFieldTuple("json-body", Text(json), "application/json", None)]
    + ElemFields(elems)
    + [MakeFieldTuple("hashes", Text(hashes), "text/plain", None)]
  }

  /** What the model sees and returns for a request whose first part decodes
      to `json`. */
  function ModelOutputs<J, C>(req: Request, json: J, modelFn: (J, seq<Bytes>, string) -> (Response, seq<C>),
                              co: Collaborators<J, C>): (Response, seq<C>)
    requires |req.parts| > 0
  {
    modelFn(json, req.parts[1..], co.sha256Hex(Concat(req.parts)))
  }

  function OutputDigest<J, C>(resp: Response, elems: seq<C>, co: Collaborators<J, C>): string
  {
    co.sha256Hex(co.utf8(co.dumps(resp)) + Concat(Map(elems, co.raw)))
  }

  /** `_do_inference` as a value: the reply, or the exception it raises. */
  function InferenceSpec<J, C>(req: Request, modelFn: (J, seq<Bytes>, string) -> (Response, seq<C>),
                               co: Collaborators<J, C>): Result<Reply<C>>
  {
    if !StartsWith(req.contentType, "multipart/related") then
      Ok(Plain(400, "invalid content-type " + req.contentType))
    else if |req.parts| == 0 then Err(IndexError)
    else
      match co.loads(Charset(req.mimetypeParams), req.parts[0])
      case None => Err(ValueError)
      case Some(json) =>
        var out := ModelOutputs(req, json, modelFn, co);
        var inputDigest := co.sha256Hex(Concat(req.parts));
        match SerializeSpec(out.0.parts, out.1, co.raw, None)
        case Err(e) => Err(e)
        case Ok(elems) =>
          Ok(Multipart(200, "multipart/related; boundary=" + req.boundary,
                       ResponseFields(co.dumps(out.0), elems, inputDigest + ":" + OutputDigest(out.0, out.1, co))))
  }

  /** A `hashlib` object fed chunk after chunk has seen their
      concatenation. */
  method Feed(init: Bytes, chunks: seq<Bytes>) returns (fed: Bytes)
    ensures fed == init + Concat(chunks)
  {
    fed := init;
    var k := 0;
    while k < |chunks|
      invariant 0 <= k <= |chunks|
      invariant fed == init + Concat(chunks[..k])
    {
      assert chunks[..k + 1][..k] == chunks[..k];
      AppendAssoc(init, Concat(chunks[..k]), chunks[k]);
      fed := fed + chunks[k];
      k := k + 1;
    }
    assert chunks[..k] == chunks;
  }

  /** `fields.extend(...)` over the enumerated serializer output. */
  method ExtendFields<C>(fields: seq<Field<C>>, elems: seq<Elem<C>>) returns (fs: seq<Field<C>>)
    ensures fs == fields + ElemFields(elems)
  {
    fs := fields;
    var i := 0;
    while i < |elems|
      invariant 0 <= i <= |elems|
      invariant fs == fields + ElemFields(elems)[..i]
    {
      assert ElemFields(elems)[..i + 1] == ElemFields(elems)[..i] + [ElemFields(elems)[i]];
      fs := fs + [MakeFieldTuple(ElemName(i), elems[i].payload, elems[i].mime, None)];
      i := i + 1;
    }
    assert ElemFields(elems)[..i] == ElemFields(elems);
  }

  /** `_do_inference`: digests the request parts, calls the model with the
      parts after the JSON one, digests the JSON reply and the binary
      elements, and lists the response fields. */
  method DoInference<J, C>(req: Request, modelFn: (J, seq<Bytes>, string) -> (Response, seq<C>),
                           co: Collaborators<J, C>) returns (r: Result<Reply<C>>)
    ensures r == InferenceSpec(req, modelFn, co)
  {
    var encoding := Charset(req.mimetypeParams);
    if !StartsWith(req.contentType, "multipart/related") {
      return Ok(Plain(400, "invalid content-type " + req.contentType));
    }
    var inputFed := Feed([], req.parts);
    assert [] + Concat(req.parts) == Concat(req.parts);
    var inputDigest := co.sha256Hex(inputFed);
    if |req.parts| == 0 {
      return Err(IndexError);
    }
    var json := co.loads(encoding, req.parts[0]);
    if json.None? {
      return Err(ValueError);
    }
    var out := modelFn(json.value, req.parts[1..], inputDigest);
    var resp, binaries := out.0, out.1;
    var outputFed := Feed(co.utf8(co.dumps(resp)), Map(binaries, co.raw));
    var outputDigest := co.sha256Hex(outputFed);
    var elems := Serialize(resp.parts, binaries, co.raw);
    if elems.Err? {
      return Err(elems.error);
    }
    var fields: seq<Field<C>> := [MakeFieldTuple("json-body", Text(co.dumps(resp)), "application/json", None)];
    fields := ExtendFields(fields, elems.value);
    fields := fields + [MakeFieldTuple("hashes", Text(inputDigest + ":" + outputDigest), "text/plain", None)];
    r := Ok(Multipart(200, "multipart/related; boundary=" + req.boundary, fields));
  }

  /** Without a `multipart/related` content type the reply is a 400 naming
      it, decided before any part is decoded: the parts do not matter. */
  lemma InferenceRejectsContentType<J, C>(req: Request, other: seq<Bytes>,
                                          modelFn: (J, seq<Bytes>, string) -> (Response, seq<C>),
                                          co: Collaborators<J, C>)
    requires !StartsWith(req.contentType, "multipart/related")
    ensures InferenceSpec(req, modelFn, co) == Ok(Plain(400, "invalid content-type " + req.contentType))
    ensures InferenceSpec(req.(parts := other), modelFn, co) == InferenceSpec(req, modelFn, co)
  {
  }

  /** The exceptions the pipeline can raise: no JSON part (IndexError),
      JSON that does not decode (ValueError), or a serializer failure. */
  lemma InferenceErrors<J, C>(req: Request, modelFn: (J, seq<Bytes>, string) -> (Response, seq<C>),
                              co: Collaborators<J, C>)
    ensures StartsWith(req.contentType, "multipart/related") && |req.parts| == 0 ==>
              InferenceSpec(req, modelFn, co) == Err(IndexError)
    ensures StartsWith(req.contentType, "multipart/related") && |req.parts| > 0 &&
            co.loads(Charset(req.mimetypeParams), req.parts[0]).None? ==>
              InferenceSpec(req, modelFn, co) == Err(ValueError)
    ensures InferenceSpec(req, modelFn, co).Err? ==>
              InferenceSpec(req, modelFn, co).error in {IndexError, ValueError, UnboundLocalError, NotImplementedError}
  {
    if StartsWith(req.contentType, "multipart/related") && |req.parts| > 0 {
      var json := co.loads(Charset(req.mimetypeParams), req.parts[0]);
      if json.Some? {
        var out := ModelOutputs(req, json.value, modelFn, co);
        SerializeErrors(out.0.parts, out.1, co.raw);
      }
    }
  }

  /** The response lists `json-body` first, then `elem_0 .. elem_{n-1}` in
      element order, then `hashes`: n + 2 fields, each named as its file. */
  lemma ResponseFieldsLayout<C>(json: string, elems: seq<Elem<C>>, hashes: string)
    ensures var fs := ResponseFields(json, elems, hashes);
            && |fs| == |elems| + 2
            && fs[0] == Field("json-body", "json-body", Text(json), "application/json", None)
            && (forall i :: 0 <= i < |elems| ==>
                  fs[i + 1] == Field(ElemName(i), ElemName(i), elems[i].payload, elems[i].mime, None))
            && fs[|elems| + 1] == Field("hashes", "hashes", Text(hashes), "text/plain", None)
  {
  }

  /** A multipart reply is the field list built from the serialised model
      outputs, with the digest of every request part, the JSON part
      included, paired with the digest of the JSON reply followed by each
      binary element in order; the model receives the parts after the JSON
      one. */
  lemma InferenceFields<J, C>(req: Request, modelFn: (J, seq<Bytes>, string) -> (Response, seq<C>),
                              co: Collaborators<J, C>)
    requires InferenceSpec(req, modelFn, co).Ok? && InferenceSpec(req, modelFn, co).value.Multipart?
    ensures StartsWith(req.contentType, "multipart/related")
    ensures |req.parts| > 0 && co.loads(Charset(req.mimetypeParams), req.parts[0]).Some?
    ensures var json := co.loads(Charset(req.mimetypeParams), req.parts[0]).value;
            var inputDigest := co.sha256Hex(req.parts[0] + Concat(req.parts[1..]));
            var out := modelFn(json, req.parts[1..], inputDigest);
            var elems := SerializeSpec(out.0.parts, out.1, co.raw, None);
            && elems.Ok?
            && InferenceSpec(req, modelFn, co).value ==
               Multipart(200, "multipart/related; boundary=" + req.boundary,
                         ResponseFields(co.dumps(out.0), elems.value,
                           inputDigest + ":" + co.sha256Hex(co.utf8(co.dumps(out.0)) + Concat(Map(out.1, co.raw)))))
  {
    ConcatCons(req.parts);
  }

  /** No two response fields share a name. */
  lemma ResponseFieldNamesDistinct<C>(json: string, elems: seq<Elem<C>>, hashes: string)
    ensures forall i, j :: 0 <= i < j < |ResponseFields(json, elems, hashes)| ==>
              ResponseFields(json, elems, hashes)[i].name != ResponseFields(json, elems, hashes)[j].name
  {
    var fs := ResponseFields(json, elems, hashes);
    forall i, j | 0 <= i < j < |fs| ensures fs[i].name != fs[j].name {
      if 0 < i && j < |fs| - 1 {
        NatToStringInjective(i - 1, j - 1);
        var a, b := ElemName(i - 1), ElemName(j - 1);
        assert a[5..] == NatToString(i - 1) && b[5..] == NatToString(j - 1);
      } else if 0 < i {
        assert fs[i].name[0] == 'e' && fs[j].name[0] == 'h';
      } else if j < |fs| - 1 {
        assert fs[i].name[0] == 'j' && fs[j].name[0] == 'e';
      } else {
        assert fs[i].name[0] == 'j' && fs[j].name[0] == 'h';
      }
    }
  }
}
