/**
  * A standalone executable (standalone.rs): the runtime's bytes, the standard
  * image, the enveloped program graph and a trailer with both lengths.
  */
module Standalone {
  import opened Wrappers
  import opened ByteCode
  import opened Artifact
  import LexOrder
  import StdImage
  import StdImageRoundTrip

  const TRAILER_LEN := 20
  const MAGIC_VEXE: Bytes := [0x56, 0x45, 0x58, 0x45]

  /** How a program graph is turned into bytes and back. */
  datatype GraphCodec<!G> = GraphCodec(encode: G -> Bytes, decode: Bytes -> Option<G>)

  ghost predicate Faithful<G(!new)>(codec: GraphCodec<G>) {
    forall g: G :: codec.decode(codec.encode(g)) == Some(g)
  }

  datatype Embedded<G> = Embedded(stdImage: Bytes, graph: G)

  datatype DetectError = Overlong | BadEnvelope(cause: ArtifactError) | BadGraph

  function Trailer(envelope: nat, image: nat): (r: Bytes)
    ensures |r| == TRAILER_LEN
  {
    Le(envelope, 8) + Le(image, 8) + MAGIC_VEXE
  }

  function Sealed(runtime: Bytes, image: Bytes, envelope: Bytes): Bytes {
    runtime + image + envelope + Trailer(|envelope|, |image|)
  }

  method WriteExecutable<G>(b: Build, codec: GraphCodec<G>, runtime: Bytes, graph: G, image: Bytes)
    returns (bytes: Bytes)
    ensures bytes == Sealed(runtime, image, Envelope(b, ModuleGraph, Distributable, codec.encode(graph)))
  {
    hide Envelope, Le;
    var payload := codec.encode(graph);
    var envelope := WriteArtifact(b, ModuleGraph, Distributable, payload);
    bytes := runtime;
    bytes := bytes + image;
    bytes := bytes + envelope;
    ghost var body := bytes;
    bytes := bytes + Le(|envelope|, 8);
    bytes := bytes + Le(|image|, 8);
    bytes := bytes + MAGIC_VEXE;
    assert bytes == body + Trailer(|envelope|, |image|);
  }

  /** The sums are checked for 64-bit overflow before they are compared with the file's length. */
  function Announced(graphLen: nat, imageLen: nat): Option<nat> {
    if graphLen + imageLen + TRAILER_LEN < 0x1_0000_0000_0000_0000
    then Some(graphLen + imageLen + TRAILER_LEN) else None
  }

  function Detect<G>(b: Build, codec: GraphCodec<G>, file: Bytes): Result<Option<Embedded<G>>, DetectError> {
    if |file| < TRAILER_LEN then Ok(None)
    else
      var trailer := file[|file| - TRAILER_LEN..];
      if trailer[16..20] != MAGIC_VEXE then Ok(None)
      else
        var graphLen, imageLen := FromLe(trailer[..8]), FromLe(trailer[8..16]);
        var announced := Announced(graphLen, imageLen);
        if announced.None? || announced.value > |file| then Err(Overlong)
        else
          var start := |file| - announced.value;
          var image := file[start..start + imageLen];
          var envelope := file[start + imageLen..start + imageLen + graphLen];
          var payload := Read(b, ModuleGraph, envelope);
          if payload.Err? then Err(BadEnvelope(payload.error))
          else
            var graph := codec.decode(payload.value);
            if graph.None? then Err(BadGraph) else Ok(Some(Embedded(image, graph.value)))
  }

  lemma TrailerParts(envelope: nat, image: nat)
    requires envelope < 0x1_0000_0000_0000_0000 && image < 0x1_0000_0000_0000_0000
    ensures var t := Trailer(envelope, image);
            t[16..20] == MAGIC_VEXE && FromLe(t[..8]) == envelope && FromLe(t[8..16]) == image
  {
    hide Le, FromLe;
    var t := Trailer(envelope, image);
    assert t[..8] == Le(envelope, 8) && t[8..16] == Le(image, 8);
    WordSizes();
    LeReadsBack(envelope, 8);
    LeReadsBack(image, 8);
  }

  lemma SealedParts(runtime: Bytes, image: Bytes, envelope: Bytes)
    ensures var file := Sealed(runtime, image, envelope);
            && |file| == |runtime| + |image| + |envelope| + TRAILER_LEN
            && file[|file| - TRAILER_LEN..] == Trailer(|envelope|, |image|)
            && file[|runtime|..|runtime| + |image|] == image
            && file[|runtime| + |image|..|runtime| + |image| + |envelope|] == envelope
  {
    hide Trailer;
  }

  /** What was sealed into an executable, whatever the runtime, is what it finds in itself. */
  lemma DetectsWhatWasWritten<G(!new)>(b: Build, codec: GraphCodec<G>, runtime: Bytes, graph: G, image: Bytes)
    requires Fits(b) && Faithful(codec)
    requires var envelope := Envelope(b, ModuleGraph, Distributable, codec.encode(graph));
             |Sealed(runtime, image, envelope)| < 0x1_0000_0000_0000_0000
    ensures var envelope := Envelope(b, ModuleGraph, Distributable, codec.encode(graph));
            Detect(b, codec, Sealed(runtime, image, envelope)) == Ok(Some(Embedded(image, graph)))
  {
    hide Envelope, Sealed, Trailer, Read, FromLe;
    var envelope := Envelope(b, ModuleGraph, Distributable, codec.encode(graph));
    SealedParts(runtime, image, envelope);
    TrailerParts(|envelope|, |image|);
    ReadWritten(b, ModuleGraph, Distributable, codec.encode(graph));
  }

  /** Only a file sealed with that image and an envelope that reads as that graph is detected. */
  lemma DetectedWasSealed<G(!new)>(b: Build, codec: GraphCodec<G>, file: Bytes, found: Embedded<G>)
    requires Detect(b, codec, file) == Ok(Some(found))
    ensures exists runtime, envelope, payload ::
              && file == Sealed(runtime, found.stdImage, envelope)
              && Read(b, ModuleGraph, envelope) == Ok(payload) && codec.decode(payload) == Some(found.graph)
  {
    hide Read, FromLe, Le;
    var n := |file|;
    var trailer := file[n - TRAILER_LEN..];
    var graphLen, imageLen := FromLe(trailer[..8]), FromLe(trailer[8..16]);
    var start := n - Announced(graphLen, imageLen).value;
    var envelope := file[start + imageLen..start + imageLen + graphLen];
    FromLeWritesBack(trailer[..8]);
    FromLeWritesBack(trailer[8..16]);
    assert trailer == trailer[..8] + trailer[8..16] + trailer[16..20];
    assert trailer == Trailer(graphLen, imageLen);
    SplitFile(file, start, imageLen, graphLen);
    assert file == Sealed(file[..start], found.stdImage, envelope);
  }

  lemma SplitFile(file: Bytes, start: nat, imageLen: nat, graphLen: nat)
    requires start + imageLen + graphLen + TRAILER_LEN == |file|
    ensures file == file[..start] + file[start..start + imageLen]
                    + file[start + imageLen..start + imageLen + graphLen] + file[|file| - TRAILER_LEN..]
  {
  }

  /** The image inside the executable still parses to the modules it was written from. */
  lemma EmbeddedImageParses<G(!new)>(b: Build, codec: GraphCodec<G>, runtime: Bytes, graph: G, version: Bytes,
                                     host: nat, modules: seq<StdImage.ImageModule>, utf8: Bytes -> bool)
    requires Fits(b) && Faithful(codec) && host < StdImage.TWO_32
    requires |StdImage.Payload(version, host, LexOrder.SortBy(modules, StdImage.Key))| < StdImage.TWO_32
    requires utf8(version) && StdImageRoundTrip.AllReadable(modules, utf8)
    requires StdImageRoundTrip.DistinctIds(modules)
    requires var envelope := Envelope(b, ModuleGraph, Distributable, codec.encode(graph));
             var image := StdImageRoundTrip.Written(b, version, host, modules);
             |Sealed(runtime, image, envelope)| < 0x1_0000_0000_0000_0000
    ensures var envelope := Envelope(b, ModuleGraph, Distributable, codec.encode(graph));
            var image := StdImageRoundTrip.Written(b, version, host, modules);
            var found := Detect(b, codec, Sealed(runtime, image, envelope));
            && found.Ok? && found.value.Some? && found.value.value.graph == graph
            && var parsed := StdImage.Parse(b, found.value.value.stdImage, utf8);
               && parsed.Ok? && parsed.value.stdVersion == version && parsed.value.hostApiVersion == host
               && parsed.value.modules == LexOrder.SortBy(modules, StdImage.Key)
  {
    hide *;
    DetectsWhatWasWritten(b, codec, runtime, graph, StdImageRoundTrip.Written(b, version, host, modules));
    StdImageRoundTrip.ParsesWhatWasWritten(b, version, host, modules, utf8);
  }
}
