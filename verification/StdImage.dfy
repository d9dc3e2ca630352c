/**
  * The standard-library image (std_image.rs): a table of words that locates the
  * sections of each module, followed by the sections themselves, sealed in an
  * artifact envelope.
  */
module StdImage {
  import opened Wrappers
  import opened ByteCode
  import opened Artifact
  import opened LexOrder

  const ENTRY_WORDS := 11
  const ENTRY_BYTES := 44
  const TWO_32 := 0x1_0000_0000

  /** Strings are given by their UTF-8 bytes. */
  datatype ImageModule = ImageModule(
    id: Bytes, path: Bytes, pure: bool, interface: Bytes, bytecode: Bytes, source: Bytes)

  datatype Image = Image(identity: nat, stdVersion: Bytes, hostApiVersion: nat, modules: seq<ImageModule>)

  datatype ImageError = Invalid(cause: ArtifactError) | Truncated | OutOfBounds | NotUtf8 | NotSorted

  function Key(m: ImageModule): seq<int> {
    m.id
  }

  // --- layout ---------------------------------------------------------------------

  function Sections(m: ImageModule): Bytes {
    m.id + m.path + m.interface + m.bytecode + m.source
  }

  function Blob(ms: seq<ImageModule>): Bytes {
    if ms == [] then [] else Sections(ms[0]) + Blob(ms[1..])
  }

  /** The words of one module whose sections start at `off`. */
  function Entry(m: ImageModule, off: nat): (r: seq<nat>)
    ensures |r| == ENTRY_WORDS
  {
    var o1 := off + |m.id|;
    var o2 := o1 + |m.path|;
    var o3 := o2 + |m.interface|;
    var o4 := o3 + |m.bytecode|;
    [off, |m.id|, o1, |m.path|, if m.pure then 1 else 0,
     o2, |m.interface|, o3, |m.bytecode|, o4, |m.source|]
  }

  function Entries(ms: seq<ImageModule>, off: nat): (r: seq<nat>)
    ensures |r| == ENTRY_WORDS * |ms|
  {
    if ms == [] then [] else Entry(ms[0], off) + Entries(ms[1..], off + |Sections(ms[0])|)
  }

  /** Words are written truncated to 32 bits. */
  function WordBytes(ws: seq<nat>): (r: Bytes)
    ensures |r| == 4 * |ws|
  {
    if ws == [] then [] else Le(ws[0] % TWO_32, 4) + WordBytes(ws[1..])
  }

  function Base(count: nat): nat {
    16 + ENTRY_BYTES * count
  }

  function Table(version: Bytes, host: nat, ms: seq<ImageModule>): (r: seq<nat>)
    ensures |r| == 4 + ENTRY_WORDS * |ms|
  {
    [host, Base(|ms|), |version|, |ms|] + Entries(ms, Base(|ms|) + |version|)
  }

  function Payload(version: Bytes, host: nat, ms: seq<ImageModule>): Bytes {
    WordBytes(Table(version, host, ms)) + version + Blob(ms)
  }

  // --- writing ----------------------------------------------------------------------

  lemma {:induction false} BlobSplit(ms: seq<ImageModule>, i: nat)
    requires i < |ms|
    ensures Blob(ms[..i + 1]) == Blob(ms[..i]) + Sections(ms[i])
  {
    hide Sections;
    if i == 0 {
      assert ms[..1][1..] == [] && ms[..0] == [];
      assert Blob(ms[..1]) == Sections(ms[0]) + Blob(ms[..1][1..]);
    } else {
      BlobSplit(ms[1..], i - 1);
      assert ms[..i + 1][1..] == ms[1..][..i] && ms[..i][1..] == ms[1..][..i - 1];
      assert Sections(ms[0]) + (Blob(ms[1..][..i - 1]) + Sections(ms[i]))
          == (Sections(ms[0]) + Blob(ms[1..][..i - 1])) + Sections(ms[i]);
    }
  }

  lemma EntriesUnfold(ms: seq<ImageModule>, off: nat)
    requires ms != []
    ensures Entries(ms, off) == Entry(ms[0], off) + Entries(ms[1..], off + |Sections(ms[0])|)
    ensures Blob(ms) == Sections(ms[0]) + Blob(ms[1..])
  {
  }

  lemma FirstTail(ms: seq<ImageModule>, i: nat)
    requires 0 < i <= |ms|
    ensures ms[..i] != [] && ms[..i][0] == ms[0] && ms[..i][1..] == ms[1..][..i - 1]
  {
  }

  lemma {:induction false} EntriesSplit(ms: seq<ImageModule>, off: nat, i: nat)
    requires i < |ms|
    ensures Entries(ms[..i + 1], off) == Entries(ms[..i], off) + Entry(ms[i], off + |Blob(ms[..i])|)
  {
    FirstTail(ms, i + 1);
    EntriesUnfold(ms[..i + 1], off);
    if i == 0 {
      assert ms[..0] == [];
    } else {
      hide Sections, Entry, Entries, Blob;
      var next := off + |Sections(ms[0])|;
      EntriesSplit(ms[1..], next, i - 1);
      FirstTail(ms, i);
      EntriesUnfold(ms[..i], off);
      Reassociate(Entry(ms[0], off), Entries(ms[1..][..i - 1], next), Entry(ms[i], off + |Blob(ms[..i])|));
    }
  }

  lemma Reassociate<T>(a: seq<T>, b: seq<T>, c: seq<T>)
    ensures a + (b + c) == (a + b) + c
  {
  }

  /** Appends a section and gives its offset and length; offsets wrap at 32 bits. */
  method Place(base: nat, data: Bytes, section: Bytes) returns (grown: Bytes, at: nat, len: nat)
    ensures grown == data + section && at == (base + |data|) % TWO_32 && len == |section| % TWO_32
  {
    at := (base + |data| % TWO_32) % TWO_32;
    grown := data + section;
    len := |section| % TWO_32;
  }

  predicate SameWords(ws: seq<nat>, vs: seq<nat>) {
    |ws| == |vs| && forall i :: 0 <= i < |ws| ==> ws[i] % TWO_32 == vs[i] % TWO_32
  }

  lemma {:induction false} SameWordsSameBytes(ws: seq<nat>, vs: seq<nat>)
    requires SameWords(ws, vs)
    ensures WordBytes(ws) == WordBytes(vs)
  {
    if ws != [] { SameWordsSameBytes(ws[1..], vs[1..]); }
  }

  /** The words as they are pushed, each already truncated. */
  lemma EntryWraps(m: ImageModule, off: nat, e: seq<nat>)
    requires |e| == ENTRY_WORDS
    requires forall i :: 0 <= i < ENTRY_WORDS ==> e[i] == Entry(m, off)[i] % TWO_32
    ensures SameWords(e, Entry(m, off))
  {
    hide Entry;
  }

  method PlaceModule(base: nat, data: Bytes, m: ImageModule) returns (grown: Bytes, entry: seq<nat>)
    ensures grown == data + Sections(m) && SameWords(entry, Entry(m, base + |data|))
  {
    hide SameWords, Sections;
    var d1, a1, n1 := Place(base, data, m.id);
    var d2, a2, n2 := Place(base, d1, m.path);
    var d3, a3, n3 := Place(base, d2, m.interface);
    var d4, a4, n4 := Place(base, d3, m.bytecode);
    var d5, a5, n5 := Place(base, d4, m.source);
    grown := d5;
    SectionsInOrder(data, m);
    entry := [a1, n1, a2, n2, if m.pure then 1 else 0, a3, n3, a4, n4, a5, n5];
    EntryWraps(m, base + |data|, entry);
  }

  lemma SectionsInOrder(data: Bytes, m: ImageModule)
    ensures data + m.id + m.path + m.interface + m.bytecode + m.source == data + Sections(m)
  {
  }

  method WriteImage(b: Build, version: Bytes, host: nat, modules: seq<ImageModule>) returns (image: Bytes)
    ensures image == Envelope(b, StdBundle, Distributable, Payload(version, host, SortBy(modules, Key)))
  {
    var sorted := SortBy(modules, Key);
    var base := Base(|sorted|);
    var data, at, len := Place(base, [], version);
    var words: seq<nat> := [host, at, len, |sorted|];
    ghost var head: seq<nat> := [host, base, |version|, |sorted|];
    ghost var start := base + |version|;
    assert data == version + Blob(sorted[..0]);
    assert Entries(sorted[..0], start) == [];
    for i := 0 to |sorted|
      invariant data == version + Blob(sorted[..i])
      invariant SameWords(words, head + Entries(sorted[..i], start))
    {
      BlobSplit(sorted, i);
      EntriesSplit(sorted, start, i);
      ghost var before := data;
      var grown, entry := PlaceModule(base, data, sorted[i]);
      data := grown;
      WriteStep(version, sorted, i, before, data, words, head, entry, start, base);
      words := words + entry;
    }
    assert sorted[..|sorted|] == sorted;
    SameWordsSameBytes(words, Table(version, host, sorted));
    var payload := WordBytes(words) + data;
    assert payload == Payload(version, host, sorted);
    image := WriteArtifact(b, StdBundle, Distributable, payload);
  }

  lemma WriteStep(version: Bytes, ms: seq<ImageModule>, i: nat, before: Bytes, after: Bytes,
                  words: seq<nat>, head: seq<nat>, entry: seq<nat>, start: nat, base: nat)
    requires i < |ms| && start == base + |version|
    requires before == version + Blob(ms[..i]) && after == before + Sections(ms[i])
    requires SameWords(words, head + Entries(ms[..i], start)) && SameWords(entry, Entry(ms[i], base + |before|))
    requires Blob(ms[..i + 1]) == Blob(ms[..i]) + Sections(ms[i])
    requires Entries(ms[..i + 1], start) == Entries(ms[..i], start) + Entry(ms[i], start + |Blob(ms[..i])|)
    ensures after == version + Blob(ms[..i + 1])
    ensures SameWords(words + entry, head + Entries(ms[..i + 1], start))
  {
    hide Entry, Sections, Blob, Entries;
    var vs := head + Entries(ms[..i], start);
    assert head + Entries(ms[..i + 1], start) == vs + Entry(ms[i], base + |before|);
  }

  // --- reading ------------------------------------------------------------------------

  function WordAt(p: Bytes, at: nat): Option<nat> {
    var raw := Slice(p, at, 4);
    if raw.Some? then Some(FromLe(raw.value)) else None
  }

  function WordsAt(p: Bytes, at: nat, n: nat): (r: Option<seq<nat>>)
    ensures r.Some? ==> |r.value| == n
    decreases n
  {
    if n == 0 then Some([])
    else
      var w := WordAt(p, at);
      if w.None? then None
      else
        var ws := WordsAt(p, at + 4, n - 1);
        if ws.Some? then Some([w.value] + ws.value) else None
  }

  function BytesAt(p: Bytes, off: nat, len: nat): Result<Bytes, ImageError> {
    var s := Slice(p, off, len);
    if s.Some? then Ok(s.value) else Err(OutOfBounds)
  }

  function StrAt(p: Bytes, off: nat, len: nat, utf8: Bytes -> bool): Result<Bytes, ImageError> {
    var s := BytesAt(p, off, len);
    if s.Ok? && !utf8(s.value) then Err(NotUtf8) else s
  }

  function ModuleAt(p: Bytes, w: seq<nat>, utf8: Bytes -> bool): Result<ImageModule, ImageError>
    requires |w| == ENTRY_WORDS
  {
    var id := StrAt(p, w[0], w[1], utf8);
    if id.Err? then Err(id.error)
    else
      var path := StrAt(p, w[2], w[3], utf8);
      if path.Err? then Err(path.error)
      else
        var interface := BytesAt(p, w[5], w[6]);
        if interface.Err? then Err(interface.error)
        else
          var bytecode := BytesAt(p, w[7], w[8]);
          if bytecode.Err? then Err(bytecode.error)
          else
            var source := StrAt(p, w[9], w[10], utf8);
            if source.Err? then Err(source.error)
            else Ok(ImageModule(id.value, path.value, w[4] % 2 == 1, interface.value, bytecode.value, source.value))
  }

  function ModulesAt(p: Bytes, at: nat, count: nat, utf8: Bytes -> bool): Result<seq<ImageModule>, ImageError>
    decreases count
  {
    if count == 0 then Ok([])
    else
      var w := WordsAt(p, at, ENTRY_WORDS);
      if w.None? then Err(Truncated)
      else
        var m := ModuleAt(p, w.value, utf8);
        if m.Err? then Err(m.error)
        else
          var ms := ModulesAt(p, at + ENTRY_BYTES, count - 1, utf8);
          if ms.Err? then ms else Ok([m.value] + ms.value)
  }

  /** Each id strictly before the next. */
  predicate Ascending(ms: seq<ImageModule>) {
    forall i :: 0 < i < |ms| ==> Below(Key(ms[i - 1]), Key(ms[i]))
  }

  function ParsePayload(p: Bytes, identity: nat, utf8: Bytes -> bool): Result<Image, ImageError> {
    var head := WordsAt(p, 0, 3);
    if head.None? then Err(Truncated)
    else
      var version := StrAt(p, head.value[1], head.value[2], utf8);
      if version.Err? then Err(version.error)
      else
        var count := WordAt(p, 12);
        if count.None? then Err(Truncated)
        else
          var ms := ModulesAt(p, 16, count.value, utf8);
          if ms.Err? then Err(ms.error)
          else if !Ascending(ms.value) then Err(NotSorted)
          else Ok(Image(identity, version.value, head.value[0], ms.value))
  }

  function Parse(b: Build, bytes: Bytes, utf8: Bytes -> bool): Result<Image, ImageError> {
    var payload := Read(b, StdBundle, bytes);
    if payload.Err? then Err(Invalid(payload.error)) else ParsePayload(payload.value, Identity(bytes), utf8)
  }
}
