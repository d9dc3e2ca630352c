/** The envelope around every artifact (artifact.rs): a header that names kind, class, producer and checksum. */
module Artifact {
  import opened Wrappers
  import opened ByteCode

  const MAGIC: Bytes := [0x56, 0x41, 0x52, 0x4E]
  const ENVELOPE_VERSION := 2
  const HEADER_LEN := 25

  /**
    * What the running build contributes: the fingerprint of its schema, the stamp of
    * the executable itself, and the hash function.
    */
  datatype Build = Build(schema: nat, producer: nat, fingerprint: Bytes -> nat)

  ghost predicate Fits(b: Build) {
    && b.schema < 0x1_0000_0000 && b.producer < 0x1_0000_0000
    && forall p: Bytes :: b.fingerprint(p) < 0x1_0000_0000_0000_0000
  }

  datatype Kind = ModuleGraph | CheckerInterface | StdBundle | JitCode

  function KindCode(k: Kind): nat {
    match k case ModuleGraph => 1 case CheckerInterface => 2 case StdBundle => 3 case JitCode => 4
  }

  function KindFrom(n: nat): Option<Kind> {
    match n
    case 1 => Some(ModuleGraph)
    case 2 => Some(CheckerInterface)
    case 3 => Some(StdBundle)
    case 4 => Some(JitCode)
    case _ => None
  }

  datatype Class = Cache | Distributable

  function ClassCode(c: Class): Byte {
    if c == Cache then 1 else 2
  }

  function ClassFrom(n: Byte): Option<Class> {
    if n == 1 then Some(Cache) else if n == 2 then Some(Distributable) else None
  }

  /** Only a cached artifact is tied to the executable that produced it. */
  function Stamp(b: Build, c: Class): nat {
    if c == Cache then b.producer else 0
  }

  datatype ArtifactError =
    | TooShort
    | BadMagic
    | UnknownEnvelope(version: nat)
    | UnknownKind(code: nat)
    | UnknownClass(classCode: nat)
    | WrongKind(expected: Kind, found: Kind)
    | Superseded
    | Corrupt

  // --- layout ---------------------------------------------------------------

  function Header(b: Build, k: Kind, c: Class, sum: nat): (r: Bytes)
    ensures |r| == HEADER_LEN
  {
    MAGIC + Le(ENVELOPE_VERSION, 2) + Le(KindCode(k), 2) + [ClassCode(c)]
    + Le(b.schema, 4) + Le(Stamp(b, c), 4) + Le(sum, 8)
  }

  function Envelope(b: Build, k: Kind, c: Class, payload: Bytes): Bytes {
    Header(b, k, c, b.fingerprint(payload)) + payload
  }

  method WriteArtifact(b: Build, k: Kind, c: Class, payload: Bytes) returns (out: Bytes)
    ensures out == Envelope(b, k, c, payload)
  {
    out := MAGIC;
    out := out + Le(ENVELOPE_VERSION, 2);
    out := out + Le(KindCode(k), 2);
    out := out + [ClassCode(c)];
    out := out + Le(b.schema, 4);
    out := out + Le(Stamp(b, c), 4);
    out := out + Le(b.fingerprint(payload), 8);
    out := out + payload;
  }

  function Read(b: Build, expected: Kind, bytes: Bytes): Result<Bytes, ArtifactError> {
    if |bytes| < HEADER_LEN then Err(TooShort)
    else if bytes[..4] != MAGIC then Err(BadMagic)
    else if FromLe(bytes[4..6]) != ENVELOPE_VERSION then Err(UnknownEnvelope(FromLe(bytes[4..6])))
    else
      var kind := KindFrom(FromLe(bytes[6..8]));
      if kind.None? then Err(UnknownKind(FromLe(bytes[6..8])))
      else if kind.value != expected then Err(WrongKind(expected, kind.value))
      else
        var cls := ClassFrom(bytes[8]);
        if cls.None? then Err(UnknownClass(bytes[8]))
        else if FromLe(bytes[9..13]) != b.schema then Err(Superseded)
        else if FromLe(bytes[13..17]) != Stamp(b, cls.value) then Err(Superseded)
        else if b.fingerprint(bytes[HEADER_LEN..]) != FromLe(bytes[17..25]) then Err(Corrupt)
        else Ok(bytes[HEADER_LEN..])
  }

  /** The stored checksum; zero for anything too short to hold one. */
  function Identity(bytes: Bytes): nat {
    if |bytes| < HEADER_LEN then 0 else FromLe(bytes[17..HEADER_LEN])
  }

  // --- what the header says -----------------------------------------------------

  lemma HeaderParts(b: Build, k: Kind, c: Class, sum: nat, payload: Bytes)
    ensures var x := Header(b, k, c, sum) + payload;
            && |x| >= HEADER_LEN
            && x[..4] == MAGIC && x[4..6] == Le(ENVELOPE_VERSION, 2) && x[6..8] == Le(KindCode(k), 2)
            && x[8] == ClassCode(c) && x[9..13] == Le(b.schema, 4) && x[13..17] == Le(Stamp(b, c), 4)
            && x[17..25] == Le(sum, 8) && x[HEADER_LEN..] == payload
  {
    hide Le;
  }

  lemma KindReadsBack(k: Kind)
    ensures KindFrom(FromLe(Le(KindCode(k), 2))) == Some(k)
  {
    WordSizes();
    LeReadsBack(KindCode(k), 2);
  }

  /** An envelope opens under any build, with the outcome its header determines. */
  lemma ReadsEnvelope(b: Build, writer: Build, k: Kind, c: Class, sum: nat, payload: Bytes, expected: Kind)
    requires Fits(writer) && sum < 0x1_0000_0000_0000_0000
    ensures Read(b, expected, Header(writer, k, c, sum) + payload)
         == if k != expected then Err(WrongKind(expected, k))
            else if writer.schema != b.schema || Stamp(writer, c) != Stamp(b, c) then Err(Superseded)
            else if b.fingerprint(payload) != sum then Err(Corrupt)
            else Ok(payload)
    ensures Identity(Header(writer, k, c, sum) + payload) == sum
  {
    hide Header, Le, FromLe, KindCode, KindFrom;
    HeaderParts(writer, k, c, sum, payload);
    WordSizes();
    LeReadsBack(ENVELOPE_VERSION, 2);
    KindReadsBack(k);
    LeReadsBack(writer.schema, 4);
    LeReadsBack(Stamp(writer, c), 4);
    LeReadsBack(sum, 8);
  }

  /** Reading succeeds on exactly the envelopes this build writes for the expected kind. */
  lemma ReadExactlyWritten(b: Build, k: Kind, bytes: Bytes, payload: Bytes)
    requires Fits(b)
    ensures Read(b, k, bytes) == Ok(payload) <==> exists c :: bytes == Envelope(b, k, c, payload)
  {
    if Read(b, k, bytes) == Ok(payload) {
      ReadIsEnvelope(b, k, bytes);
    }
    forall c | bytes == Envelope(b, k, c, payload) ensures Read(b, k, bytes) == Ok(payload) {
      hide Header, Read;
      ReadsEnvelope(b, b, k, c, b.fingerprint(payload), payload, k);
    }
  }

  lemma SplitAtFields(bytes: Bytes)
    requires |bytes| >= HEADER_LEN
    ensures bytes == bytes[..4] + bytes[4..6] + bytes[6..8] + [bytes[8]] + bytes[9..13] + bytes[13..17]
                     + bytes[17..25] + bytes[HEADER_LEN..]
  {
  }

  lemma KindCodeBack(n: nat)
    requires KindFrom(n).Some?
    ensures KindCode(KindFrom(n).value) == n
  {
  }

  lemma ReadIsEnvelope(b: Build, k: Kind, bytes: Bytes)
    requires Read(b, k, bytes).Ok?
    ensures exists c :: bytes == Envelope(b, k, c, bytes[HEADER_LEN..])
  {
    hide Le, FromLe, KindCode, KindFrom;
    var c := ClassFrom(bytes[8]).value;
    SplitAtFields(bytes);
    KindCodeBack(FromLe(bytes[6..8]));
    FromLeWritesBack(bytes[4..6]);
    FromLeWritesBack(bytes[6..8]);
    FromLeWritesBack(bytes[9..13]);
    FromLeWritesBack(bytes[13..17]);
    FromLeWritesBack(bytes[17..25]);
    assert bytes == Envelope(b, k, c, bytes[HEADER_LEN..]);
  }

  lemma ReadWritten(b: Build, k: Kind, c: Class, payload: Bytes)
    requires Fits(b)
    ensures Read(b, k, Envelope(b, k, c, payload)) == Ok(payload)
    ensures Identity(Envelope(b, k, c, payload)) == b.fingerprint(payload)
  {
    hide Header, Read, Identity;
    ReadsEnvelope(b, b, k, c, b.fingerprint(payload), payload, k);
  }

  /** Another build rejects a cached artifact, and accepts a distributable one of the same schema and hash. */
  lemma OtherBuild(b: Build, writer: Build, k: Kind, c: Class, payload: Bytes)
    requires Fits(writer) && b.fingerprint == writer.fingerprint
    ensures Read(b, k, Envelope(writer, k, c, payload)) == Ok(payload)
       <==> writer.schema == b.schema && (c == Cache ==> writer.producer == b.producer)
  {
    hide Header, Read;
    ReadsEnvelope(b, writer, k, c, writer.fingerprint(payload), payload, k);
  }
}
