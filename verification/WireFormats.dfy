/**
  * The formats byte by byte and tag by tag, as other programs see them: what a round trip
  * alone would not fix.
  */
module WireFormats {
  import opened Wrappers
  import opened ByteCode
  import opened Artifact
  import opened StdImage
  import Standalone
  import NumberText
  import T = TypeDescCodec

  // --- words ----------------------------------------------------------------------

  lemma DivideTwice(n: nat, m: nat)
    requires m > 0
    ensures (n / 256) / m == n / (256 * m)
  {
    var q, r := n / 256, n % 256;
    var s, t := q / m, q % m;
    assert n == 256 * (s * m + t) + r;
    assert n == s * (256 * m) + (256 * t + r);
    assert 256 * t + r < 256 * m;
    QuotientOf(n, s, 256 * t + r, 256 * m);
  }

  lemma QuotientOf(n: nat, q: nat, r: nat, m: nat)
    requires m > 0 && n == q * m + r && r < m
    ensures n / m == q
  {
    var p, s := n / m, n % m;
    assert p * m + s == n && s < m;
    if p < q { Gap(p, q, m); }
    if q < p { Gap(q, p, m); }
  }

  lemma Gap(a: nat, b: nat, m: nat)
    requires a < b
    ensures a * m + m <= b * m
  {
    assert b * m == (a + 1) * m + (b - a - 1) * m;
    Positive(b - a - 1, m);
  }

  lemma Positive(a: nat, b: nat)
    ensures a * b >= 0
  {
  }

  /** A word's bytes stand least significant first. */
  lemma {:induction false} LeAt(n: nat, width: nat, i: nat)
    requires i < width
    ensures Le(n, width)[i] == (n / Pow256(i)) % 256
  {
    if i > 0 {
      LeAt(n / 256, width - 1, i - 1);
      DivideTwice(n, Pow256(i - 1));
    }
  }

  // --- the envelope -----------------------------------------------------------------

  /**
    * An envelope: the letters VARN, version 2, the kind, the class, then schema, stamp and
    * checksum, all least significant byte first, and the payload.
    */
  lemma EnvelopeBytes(b: Build, k: Kind, c: Class, payload: Bytes)
    ensures var x := Envelope(b, k, c, payload);
            && |x| == 25 + |payload| && x[25..] == payload
            && x[..4] == [0x56, 0x41, 0x52, 0x4E] && x[4] == 2 && x[5] == 0
            && x[6] == (match k case ModuleGraph => 1 case CheckerInterface => 2 case StdBundle => 3 case JitCode => 4)
            && x[7] == 0 && x[8] == (match c case Cache => 1 case Distributable => 2)
            && (forall i: nat :: i < 4 ==> x[9 + i] == (b.schema / Pow256(i)) % 256)
            && (forall i: nat :: i < 4 ==>
                  x[13 + i] == if c.Cache? then (b.producer / Pow256(i)) % 256 else 0)
            && (forall i: nat :: i < 8 ==> x[17 + i] == (b.fingerprint(payload) / Pow256(i)) % 256)
  {
    var x, sum := Envelope(b, k, c, payload), b.fingerprint(payload);
    HeaderParts(b, k, c, sum, payload);
    SmallWord(2);
    SmallWord(KindCode(k));
    assert x[4] == x[4..6][0] && x[5] == x[4..6][1] && x[6] == x[6..8][0] && x[7] == x[6..8][1];
    forall i: nat | i < 4 ensures x[9 + i] == (b.schema / Pow256(i)) % 256 {
      LeAt(b.schema, 4, i);
      assert x[9 + i] == x[9..13][i];
    }
    forall i: nat | i < 4 ensures x[13 + i] == if c.Cache? then (b.producer / Pow256(i)) % 256 else 0 {
      LeAt(Stamp(b, c), 4, i);
      assert x[13 + i] == x[13..17][i];
      ZeroBytes(Pow256(i));
    }
    forall i: nat | i < 8 ensures x[17 + i] == (sum / Pow256(i)) % 256 {
      LeAt(sum, 8, i);
      assert x[17 + i] == x[17..25][i];
    }
  }

  lemma ZeroBytes(m: nat)
    requires m > 0
    ensures (0 / m) % 256 == 0
  {
    QuotientOf(0, 0, 0, m);
  }

  lemma SmallWord(n: nat)
    requires n < 256
    ensures Le(n, 2) == [n, 0]
  {
    assert Le(n / 256, 1) == [0] + Le(0, 0);
  }

  // --- the executable ----------------------------------------------------------------

  /** An executable ends with the lengths of envelope and image and the letters VEXE. */
  lemma ExecutableBytes(runtime: Bytes, image: Bytes, envelope: Bytes)
    ensures var x := Standalone.Sealed(runtime, image, envelope);
            var at := |runtime| + |image| + |envelope|;
            && |x| == at + 20
            && x[..|runtime|] == runtime && x[|runtime|..|runtime| + |image|] == image
            && x[|runtime| + |image|..at] == envelope
            && (forall i: nat :: i < 8 ==> x[at + i] == (|envelope| / Pow256(i)) % 256)
            && (forall i: nat :: i < 8 ==> x[at + 8 + i] == (|image| / Pow256(i)) % 256)
            && x[at + 16..] == [0x56, 0x45, 0x58, 0x45]
  {
    var x, at := Standalone.Sealed(runtime, image, envelope), |runtime| + |image| + |envelope|;
    var first, second := Le(|envelope|, 8), Le(|image|, 8);
    Standalone.SealedParts(runtime, image, envelope);
    var tail := x[at..];
    assert tail == Standalone.Trailer(|envelope|, |image|) == first + second + [0x56, 0x45, 0x58, 0x45];
    assert x[..|runtime|] == runtime;
    forall i: nat | i < 8 ensures x[at + i] == (|envelope| / Pow256(i)) % 256 {
      LeAt(|envelope|, 8, i);
      assert x[at + i] == tail[i] == first[i];
    }
    forall i: nat | i < 8 ensures x[at + 8 + i] == (|image| / Pow256(i)) % 256 {
      LeAt(|image|, 8, i);
      assert x[at + 8 + i] == tail[8 + i] == second[i];
    }
    assert x[at + 16..] == tail[16..] == [0x56, 0x45, 0x58, 0x45];
  }

  // --- the standard image ---------------------------------------------------------------

  /** The word of four bytes at `at`. */
  function Word(bs: Bytes, at: nat): nat
    requires at + 4 <= |bs|
  {
    var a: int, b: int, c: int, d: int := bs[at], bs[at + 1], bs[at + 2], bs[at + 3];
    a + 0x100 * b + 0x1_0000 * c + 0x100_0000 * d
  }

  predicate Holds(bs: Bytes, off: nat, len: nat, section: Bytes) {
    off + len <= |bs| && bs[off..off + len] == section
  }

  lemma FourBytes(n: nat)
    requires n < 0x1_0000_0000
    ensures Word(Le(n, 4), 0) == n
  {
    WordSizes();
    LeReadsBack(n, 4);
    var b := Le(n, 4);
    assert FromLe(b[1..]) == b[1] + 256 * FromLe(b[1..][1..]);
    assert FromLe(b[1..][1..]) == b[2] + 256 * FromLe(b[1..][1..][1..]);
    assert FromLe(b[1..][1..][1..]) == b[3] + 256 * FromLe(b[1..][1..][1..][1..]);
    assert b[1..][1..][1..][1..] == [];
  }

  lemma SameWord(a: Bytes, at: nat, b: Bytes, bt: nat)
    requires at + 4 <= |a| && bt + 4 <= |b| && a[at..at + 4] == b[bt..bt + 4]
    ensures Word(a, at) == Word(b, bt)
  {
    assert a[at..at + 4][0] == a[at] && a[at..at + 4][1] == a[at + 1];
    assert a[at..at + 4][2] == a[at + 2] && a[at..at + 4][3] == a[at + 3];
    assert b[bt..bt + 4][0] == b[bt] && b[bt..bt + 4][1] == b[bt + 1];
    assert b[bt..bt + 4][2] == b[bt + 2] && b[bt..bt + 4][3] == b[bt + 3];
  }

  lemma {:induction false} WordBytesAt(ws: seq<nat>, rest: Bytes, k: nat)
    requires k < |ws| && ws[k] < 0x1_0000_0000
    ensures Word(WordBytes(ws) + rest, 4 * k) == ws[k]
  {
    hide WordBytes, Le, Word;
    var all, less := WordBytes(ws) + rest, WordBytes(ws[1..]) + rest;
    WordsUnfold(ws, rest);
    if k == 0 {
      FourBytes(ws[0]);
      assert ws[0] % TWO_32 == ws[0];
      WordInFront(Le(ws[0], 4), less);
    } else {
      WordBytesAt(ws[1..], rest, k - 1);
      FurtherWord(Le(ws[0] % TWO_32, 4), less, k);
    }
  }

  lemma WordInFront(a: Bytes, b: Bytes)
    requires |a| == 4
    ensures Word(a + b, 0) == Word(a, 0)
  {
  }

  lemma WordsUnfold(ws: seq<nat>, rest: Bytes)
    requires ws != []
    ensures WordBytes(ws) + rest == Le(ws[0] % TWO_32, 4) + (WordBytes(ws[1..]) + rest)
  {
    FirstWord(ws);
    hide WordBytes, Le;
    Joined(Le(ws[0] % TWO_32, 4), WordBytes(ws[1..]), rest);
  }

  lemma FirstWord(ws: seq<nat>)
    requires ws != []
    ensures WordBytes(ws) == Le(ws[0] % TWO_32, 4) + WordBytes(ws[1..])
  {
    hide Le;
  }

  lemma FurtherWord(first: Bytes, less: Bytes, k: nat)
    requires |first| == 4 && k > 0 && 4 * k <= |less|
    ensures Word(first + less, 4 * k) == Word(less, 4 * (k - 1))
  {
    var all := first + less;
    assert all[4 * k..4 * k + 4] == less[4 * (k - 1)..4 * (k - 1) + 4];
    SameWord(all, 4 * k, less, 4 * (k - 1));
  }

  lemma {:induction false} EntryAt(ms: seq<ImageModule>, off: nat, i: nat, k: nat)
    requires i < |ms| && k < 11
    ensures Entries(ms, off)[11 * i + k] == Entry(ms[i], off + |Blob(ms[..i])|)[k]
  {
    hide Entries, Entry, Blob, Sections, Le, WordBytes;
    EntriesUnfold(ms, off);
    if i == 0 {
      NothingBefore(ms);
    } else {
      var next := off + |Sections(ms[0])|;
      EntryAt(ms[1..], next, i - 1, k);
      FirstTail(ms, i);
      EntriesUnfold(ms[..i], off);
      FurtherEntry(Entry(ms[0], off), Entries(ms[1..], next), i, k);
    }
  }

  lemma NothingBefore(ms: seq<ImageModule>)
    ensures ms[..0] == [] && Blob(ms[..0]) == []
  {
  }

  lemma FurtherEntry(first: seq<nat>, others: seq<nat>, i: nat, k: nat)
    requires |first| == 11 && i > 0 && 11 * (i - 1) + k < |others|
    ensures (first + others)[11 * i + k] == others[11 * (i - 1) + k]
  {
  }

  lemma {:induction false} BlobAt(ms: seq<ImageModule>, i: nat)
    requires i < |ms|
    ensures Holds(Blob(ms), |Blob(ms[..i])|, |Sections(ms[i])|, Sections(ms[i]))
  {
    EntriesUnfold(ms, 0);
    if i == 0 {
      assert ms[..0] == [];
      hide Sections;
    } else {
      BlobAt(ms[1..], i - 1);
      FirstTail(ms, i);
      EntriesUnfold(ms[..i], 0);
      hide Sections, Blob;
      Shift(Sections(ms[0]), Blob(ms[1..]), |Blob(ms[1..][..i - 1])|, |Sections(ms[i])|, Sections(ms[i]));
    }
  }

  lemma Shift(front: Bytes, bs: Bytes, off: nat, len: nat, section: Bytes)
    requires Holds(bs, off, len, section)
    ensures Holds(front + bs, |front| + off, len, section)
  {
    assert (front + bs)[|front| + off..|front| + off + len] == bs[off..off + len];
  }

  lemma Within(bs: Bytes, off: nat, pre: Bytes, mid: Bytes, post: Bytes)
    requires Holds(bs, off, |pre + mid + post|, pre + mid + post)
    ensures Holds(bs, off + |pre|, |mid|, mid)
  {
    var whole := pre + mid + post;
    assert whole[|pre|..|pre| + |mid|] == mid;
    SliceOfSlice(bs, off, |whole|, |pre|, |pre| + |mid|);
  }

  lemma SliceOfSlice(bs: Bytes, off: nat, n: nat, i: nat, j: nat)
    requires off + n <= |bs| && i <= j <= n
    ensures bs[off..off + n][i..j] == bs[off + i..off + j]
  {
    var a, b := bs[off..off + n][i..j], bs[off + i..off + j];
    assert |a| == |b|;
    forall k | 0 <= k < |a| ensures a[k] == b[k] {
      assert a[k] == bs[off..off + n][i + k] == bs[off + (i + k)];
      assert b[k] == bs[off + i + k];
    }
  }

  lemma WithinModule(bs: Bytes, off: nat, m: ImageModule)
    requires Holds(bs, off, |Sections(m)|, Sections(m))
    ensures var e := Entry(m, off);
            && Holds(bs, e[0], e[1], m.id) && Holds(bs, e[2], e[3], m.path) && Holds(bs, e[5], e[6], m.interface)
            && Holds(bs, e[7], e[8], m.bytecode) && Holds(bs, e[9], e[10], m.source)
  {
    SectionsApart(m);
    hide *;
    Within(bs, off, [], m.id, m.path + m.interface + m.bytecode + m.source);
    Within(bs, off, m.id, m.path, m.interface + m.bytecode + m.source);
    Within(bs, off, m.id + m.path, m.interface, m.bytecode + m.source);
    Within(bs, off, m.id + m.path + m.interface, m.bytecode, m.source);
    Within(bs, off, m.id + m.path + m.interface + m.bytecode, m.source, []);
    EntryIs(m, off);
  }

  lemma EntryIs(m: ImageModule, off: nat)
    ensures var e := Entry(m, off);
            && e[0] == off && e[1] == |m.id| && e[2] == off + |m.id| && e[3] == |m.path|
            && e[5] == off + |m.id + m.path| && e[6] == |m.interface|
            && e[7] == off + |m.id + m.path + m.interface| && e[8] == |m.bytecode|
            && e[9] == off + |m.id + m.path + m.interface + m.bytecode| && e[10] == |m.source|
  {
  }

  lemma SectionsApart(m: ImageModule)
    ensures Sections(m) == [] + m.id + (m.path + m.interface + m.bytecode + m.source)
    ensures Sections(m) == m.id + m.path + (m.interface + m.bytecode + m.source)
    ensures Sections(m) == (m.id + m.path) + m.interface + (m.bytecode + m.source)
    ensures Sections(m) == (m.id + m.path + m.interface) + m.bytecode + m.source
    ensures Sections(m) == (m.id + m.path + m.interface + m.bytecode) + m.source + []
  {
    var a, b, c, e, f := m.id, m.path, m.interface, m.bytecode, m.source;
    assert Sections(m) == a + b + c + e + f;
    hide *;
    Joined(a + b + c, e, f);
    Joined(a + b, c, e + f);
    Joined(c, e, f);
    Joined(a, b, c + (e + f));
    Joined(b, c, e + f);
    assert [] + a == a && a + b + c + e + f + [] == a + b + c + e + f;
  }

  lemma Joined(a: Bytes, b: Bytes, c: Bytes)
    ensures (a + b) + c == a + (b + c)
  {
  }

  /** The word with the given number in the table of an image. */
  function TableWord(p: Bytes, k: nat): nat
    requires 4 * k + 4 <= |p|
  {
    Word(p, 4 * k)
  }

  lemma PayloadSize(version: Bytes, host: nat, ms: seq<ImageModule>)
    ensures var off := Base(|ms|) + |version|;
            && |Payload(version, host, ms)| == off + |Blob(ms)| && off == 16 + 44 * |ms| + |version|
  {
  }

  lemma HeadWords(version: Bytes, host: nat, ms: seq<ImageModule>)
    requires host < 0x1_0000_0000 && |Payload(version, host, ms)| < 0x1_0000_0000
    ensures var p := Payload(version, host, ms);
            && 16 + 44 * |ms| <= |p|
            && TableWord(p, 0) == host && TableWord(p, 3) == |ms|
            && Holds(p, TableWord(p, 1), TableWord(p, 2), version)
  {
    var p, ws := Payload(version, host, ms), Table(version, host, ms);
    PayloadSize(version, host, ms);
    assert p == WordBytes(ws) + (version + Blob(ms));
    hide WordBytes, Blob, Entries, Payload, Word;
    WordBytesAt(ws, version + Blob(ms), 0);
    WordBytesAt(ws, version + Blob(ms), 1);
    WordBytesAt(ws, version + Blob(ms), 2);
    WordBytesAt(ws, version + Blob(ms), 3);
    var base := |WordBytes(ws)|;
    assert p[base..base + |version|] == version;
  }

  lemma ModuleStands(version: Bytes, host: nat, ms: seq<ImageModule>, i: nat)
    requires i < |ms|
    ensures Holds(Payload(version, host, ms), Base(|ms|) + |version| + |Blob(ms[..i])|, |Sections(ms[i])|,
                  Sections(ms[i]))
  {
    BlobAt(ms, i);
    var front := WordBytes(Table(version, host, ms)) + version;
    assert |front| == Base(|ms|) + |version|;
    hide WordBytes, Blob, Entries, Sections;
    Shift(front, Blob(ms), |Blob(ms[..i])|, |Sections(ms[i])|, Sections(ms[i]));
  }

  lemma EntryWord(version: Bytes, host: nat, ms: seq<ImageModule>, i: nat, k: nat, at: nat)
    requires host < 0x1_0000_0000 && |Payload(version, host, ms)| < 0x1_0000_0000 && i < |ms|
    requires k < 11 && at == 4 + 11 * i + k
    ensures 4 * at + 4 <= |Payload(version, host, ms)|
    ensures TableWord(Payload(version, host, ms), at)
         == Entry(ms[i], Base(|ms|) + |version| + |Blob(ms[..i])|)[k]
  {
    hide *;
    var p, ws, off := Payload(version, host, ms), Table(version, host, ms), Base(|ms|) + |version|;
    EntryAt(ms, off, i, k);
    ModuleStands(version, host, ms, i);
    EntryIsSmall(p, off + |Blob(ms[..i])|, ms[i], k);
    RowIsInside(i, k, |ms|);
    TableTail(version, host, ms, 11 * i + k);
    WordBytesAt(ws, version + Blob(ms), at);
    TableWordIs(p, at);
  }

  lemma RowIsInside(i: nat, k: nat, n: nat)
    requires i < n && k < 11
    ensures 11 * i + k < 11 * n
  {
  }

  lemma TableWordIs(p: Bytes, k: nat)
    requires 4 * k + 4 <= |p|
    ensures TableWord(p, k) == Word(p, 4 * k)
  {
  }

  lemma TableTail(version: Bytes, host: nat, ms: seq<ImageModule>, k: nat)
    requires k < 11 * |ms|
    ensures 4 + k < |Table(version, host, ms)|
    ensures Table(version, host, ms)[4 + k] == Entries(ms, Base(|ms|) + |version|)[k]
    ensures Payload(version, host, ms) == WordBytes(Table(version, host, ms)) + (version + Blob(ms))
  {
    hide WordBytes, Blob, Entries;
  }

  lemma EntryIsSmall(p: Bytes, off: nat, m: ImageModule, k: nat)
    requires |p| < 0x1_0000_0000 && k < 11 && Holds(p, off, |Sections(m)|, Sections(m))
    ensures Entry(m, off)[k] < 0x1_0000_0000
  {
  }

  /**
    * An image's payload of less than 2^32 bytes: the host number, where the version stands,
    * its length and the number of modules; then for each module eleven words, which say
    * where its id and path stand, whether it is pure, and where its interface, bytecode and
    * source stand.
    */
  lemma ImageTable(version: Bytes, host: nat, ms: seq<ImageModule>, i: nat)
    requires host < 0x1_0000_0000 && |Payload(version, host, ms)| < 0x1_0000_0000 && i < |ms|
    ensures var p := Payload(version, host, ms);
            && 16 + 44 * |ms| <= |p|
            && TableWord(p, 0) == host && TableWord(p, 3) == |ms|
            && Holds(p, TableWord(p, 1), TableWord(p, 2), version)
            && TableWord(p, 8 + 11 * i) == (if ms[i].pure then 1 else 0)
            && Holds(p, TableWord(p, 4 + 11 * i), TableWord(p, 5 + 11 * i), ms[i].id)
            && Holds(p, TableWord(p, 6 + 11 * i), TableWord(p, 7 + 11 * i), ms[i].path)
            && Holds(p, TableWord(p, 9 + 11 * i), TableWord(p, 10 + 11 * i), ms[i].interface)
            && Holds(p, TableWord(p, 11 + 11 * i), TableWord(p, 12 + 11 * i), ms[i].bytecode)
            && Holds(p, TableWord(p, 13 + 11 * i), TableWord(p, 14 + 11 * i), ms[i].source)
  {
    hide *;
    var p, off := Payload(version, host, ms), Base(|ms|) + |version| + |Blob(ms[..i])|;
    HeadWords(version, host, ms);
    ModuleStands(version, host, ms, i);
    WithinModule(p, off, ms[i]);
    EntryWord(version, host, ms, i, 0, 4 + 11 * i);
    EntryWord(version, host, ms, i, 1, 5 + 11 * i);
    EntryWord(version, host, ms, i, 2, 6 + 11 * i);
    EntryWord(version, host, ms, i, 3, 7 + 11 * i);
    EntryWord(version, host, ms, i, 4, 8 + 11 * i);
    EntryWord(version, host, ms, i, 5, 9 + 11 * i);
    EntryWord(version, host, ms, i, 6, 10 + 11 * i);
    EntryWord(version, host, ms, i, 7, 11 + 11 * i);
    EntryWord(version, host, ms, i, 8, 12 + 11 * i);
    EntryWord(version, host, ms, i, 9, 13 + 11 * i);
    EntryWord(version, host, ms, i, 10, 14 + 11 * i);
    FifthWord(ms[i], off);
  }

  lemma FifthWord(m: ImageModule, off: nat)
    ensures Entry(m, off)[4] == if m.pure then 1 else 0
  {
  }

  // --- the descriptor text -----------------------------------------------------------------

  /** The texts of the descriptors without parts. */
  lemma LeafTexts()
    ensures && T.Encode(T.Any) == "*" && T.Encode(T.Int) == "i" && T.Encode(T.Float) == "f"
            && T.Encode(T.Bool) == "b" && T.Encode(T.Char) == "c" && T.Encode(T.Str) == "s"
            && T.Encode(T.Bytes) == "y" && T.Encode(T.Decimal) == "d" && T.Encode(T.BigInt) == "g"
            && T.Encode(T.Callable) == "F"
  {
  }

  /** The letter that opens a descriptor of one part. */
  lemma WrapperTags(t: T.TypeDesc)
    ensures T.Encode(T.Array(t)) == "[" + T.Encode(t) && T.Encode(T.Set(t)) == "Z" + T.Encode(t)
    ensures T.Encode(T.Dict(t)) == "D" + T.Encode(t) && T.Encode(T.Nullable(t)) == "?" + T.Encode(t)
  {
    hide NumberText.Digits, T.EncodeLiteral, T.EncodeAll, T.EncodeFields, T.Named;
  }

  lemma NamedTags(n: NumberText.U32, name: string)
    ensures T.Encode(T.Class(n, name)) == "C" + T.Named(n, name)
    ensures T.Encode(T.Enum(n, name)) == "E" + T.Named(n, name)
    ensures T.Encode(T.Enclosing(n, name)) == "R" + T.Named(n, name)
  {
    hide NumberText.Digits, T.EncodeLiteral, T.EncodeAll, T.EncodeFields, T.Named;
  }

  /** The letter that opens a map, and a name with its number. */
  lemma OpeningTags(t: T.TypeDesc, u: T.TypeDesc, n: NumberText.U32, name: string)
    ensures T.Encode(T.Map(t, u)) == "M" + (T.Encode(t) + T.Encode(u))
    ensures var named := NumberText.Digits(n) + (":" + (name + ";"));
            && T.Encode(T.Class(n, name)) == "C" + named && T.Encode(T.Enum(n, name)) == "E" + named
            && T.Encode(T.Enclosing(n, name)) == "R" + named
  {
    NamedTags(n, name);
    Regroup(NumberText.Digits(n), ":", name + ";");
    assert T.Encode(T.Map(t, u)) == "M" + (T.Encode(t) + T.Encode(u));
    assert T.Named(n, name) == NumberText.Digits(n) + ":" + (name + ";");
    hide *;
  }

  lemma TwoEncoded(t: T.TypeDesc, u: T.TypeDesc)
    ensures T.EncodeAll([t, u]) == T.Encode(t) + T.Encode(u)
    ensures T.EncodeAll([t]) == T.Encode(t)
  {
    assert [t, u][1..] == [u] && [u][1..] == [] && [t][1..] == [];
    assert T.EncodeAll([u]) == T.Encode(u) + T.EncodeAll([u][1..]);
    hide T.Encode;
  }

  /** Counted parts, and the optional rest of an argument list. */
  lemma DescriptorParts(t: T.TypeDesc, u: T.TypeDesc)
    ensures T.Encode(T.Tuple([t, u])) == "T2;" + (T.Encode(t) + T.Encode(u))
    ensures T.Encode(T.Args([t], None)) == "A1;" + (T.Encode(t) + ".")
    ensures T.Encode(T.Args([t], Some(u))) == "A1;" + (T.Encode(t) + ("+" + T.Encode(u)))
  {
    TwoEncoded(t, u);
    ShortTexts();
    Regroup("T", "2;", T.Encode(t) + T.Encode(u));
    Regroup("A", "1;", T.Encode(t) + ".");
    Regroup("A", "1;", T.Encode(t) + ("+" + T.Encode(u)));
    assert "2" + ";" == "2;" && "1" + ";" == "1;" && "T" + "2;" == "T2;" && "A" + "1;" == "A1;";
    CountedText(t, u);
  }

  lemma Regroup(a: string, b: string, c: string)
    ensures a + (b + c) == (a + b) + c
  {
  }

  lemma CountedText(t: T.TypeDesc, u: T.TypeDesc)
    ensures T.Encode(T.Tuple([t, u])) == "T" + (NumberText.Digits(2) + ";" + T.EncodeAll([t, u]))
    ensures T.Encode(T.Args([t], None)) == "A" + (NumberText.Digits(1) + ";" + (T.EncodeAll([t]) + "."))
    ensures T.Encode(T.Args([t], Some(u)))
         == "A" + (NumberText.Digits(1) + ";" + (T.EncodeAll([t]) + ("+" + T.Encode(u))))
  {
    hide NumberText.Digits, T.EncodeAll;
  }

  lemma ShortTexts()
    ensures T.ByteLen("ab") == 2 && NumberText.Digits(2) == "2" && NumberText.Digits(1) == "1"
  {
    assert "ab"[1..] == "b" && "b"[1..] == "";
    assert T.ByteLen("b") == 1;
  }

  lemma OneField(f: T.FieldDesc)
    ensures T.Encode(T.Object([f])) == "O" + (NumberText.Digits(1) + ";" + T.EncodeField(f))
  {
    assert [f][1..] == [];
    assert T.EncodeFields([f]) == T.EncodeField(f) + T.EncodeFields([f][1..]) == T.EncodeField(f);
    hide T.EncodeField, NumberText.Digits;
  }

  /** A field: its name behind its length in bytes, then one character for its two flags. */
  lemma FieldFlags(t: T.TypeDesc, optional: bool, readonly: bool)
    ensures var flags := match (optional, readonly)
                         case (false, false) => '!' case (true, false) => '~'
                         case (false, true) => '^' case (true, true) => '?';
            T.Encode(T.Object([T.FieldDesc("ab", t, optional, readonly)]))
            == "O" + ("1;" + ("2:" + ("ab" + ([flags] + T.Encode(t)))))
  {
    var f := T.FieldDesc("ab", t, optional, readonly);
    OneField(f);
    ShortTexts();
    assert "2" + ":" == "2:" && "1" + ";" == "1;";
    hide T.Encode, T.ByteLen, NumberText.Digits;
  }

  /** Literals: a number to its semicolon, a text behind its length in bytes, the two truth values, a character. */
  lemma LiteralTexts(n: NumberText.I64, c: char)
    ensures T.Encode(T.Literal(T.IntLit(n))) == "Li" + NumberText.IntText(n) + ";"
    ensures T.Encode(T.Literal(T.StrLit("ab"))) == "Ls2:ab"
    ensures T.Encode(T.Literal(T.BoolLit(true))) == "Lt" && T.Encode(T.Literal(T.BoolLit(false))) == "Lf"
    ensures T.Encode(T.Literal(T.CharLit(c))) == "Lc" + [c]
  {
    ShortTexts();
    hide T.ByteLen, NumberText.Digits, NumberText.IntText, T.EncodeAll, T.EncodeFields;
  }
}
