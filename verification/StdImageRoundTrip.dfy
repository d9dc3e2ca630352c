/** Parsing a written image gives its modules back, and looking one up finds it. */
module StdImageRoundTrip {
  import opened Wrappers
  import opened ByteCode
  import opened Artifact
  import opened LexOrder
  import opened StdImage

  // --- the cursor ---------------------------------------------------------------------

  class Cursor {
    const payload: Bytes
    var at: nat

    constructor (payload: Bytes)
      ensures this.payload == payload && at == 0
    {
      this.payload := payload;
      at := 0;
    }

    method Word() returns (w: Option<nat>)
      modifies this
      ensures w == WordAt(payload, old(at))
      ensures at == if w.Some? then old(at) + 4 else old(at)
    {
      var raw := Slice(payload, at, 4);
      if raw.None? { return None; }
      at := at + 4;
      w := Some(FromLe(raw.value));
    }

    method Words(n: nat) returns (ws: Option<seq<nat>>)
      modifies this
      ensures ws == WordsAt(payload, old(at), n)
      ensures ws.Some? ==> at == old(at) + 4 * n
    {
      hide WordAt;
      var got: seq<nat> := [];
      ResumeNothing(WordsAt(payload, at, n));
      for i := 0 to n
        invariant |got| == i && at == old(at) + 4 * i
        invariant WordsAt(payload, old(at), n) == Resume(got, WordsAt(payload, at, n - i))
      {
        WordsStep(payload, at, n - i, got);
        var w := Word();
        if w.None? { return None; }
        got := got + [w.value];
      }
      assert got + [] == got;
      ws := Some(got);
    }

    method Modules(count: nat, utf8: Bytes -> bool) returns (r: Result<seq<ImageModule>, ImageError>)
      modifies this
      ensures r == ModulesAt(payload, old(at), count, utf8)
    {
      hide ModuleAt, WordsAt;
      var got: seq<ImageModule> := [];
      ResumeNoModules(ModulesAt(payload, at, count, utf8));
      for i := 0 to count
        invariant |got| == i && at == old(at) + ENTRY_BYTES * i
        invariant ModulesAt(payload, old(at), count, utf8)
               == ResumeModules(got, ModulesAt(payload, at, count - i, utf8))
      {
        ModulesStep(payload, at, count - i, utf8, got);
        var w := Words(ENTRY_WORDS);
        if w.None? { return Err(Truncated); }
        var m := ModuleAt(payload, w.value, utf8);
        if m.Err? { return Err(m.error); }
        got := got + [m.value];
      }
      assert got + [] == got;
      r := Ok(got);
    }
  }

  function Resume(got: seq<nat>, more: Option<seq<nat>>): Option<seq<nat>> {
    if more.Some? then Some(got + more.value) else None
  }

  lemma ResumeNothing(more: Option<seq<nat>>)
    ensures Resume([], more) == more
  {
    if more.Some? { assert [] + more.value == more.value; }
  }

  lemma WordsStep(p: Bytes, at: nat, n: nat, got: seq<nat>)
    requires n > 0
    ensures var w := WordAt(p, at);
            Resume(got, WordsAt(p, at, n))
            == if w.None? then None else Resume(got + [w.value], WordsAt(p, at + 4, n - 1))
  {
    hide WordAt;
    var w := WordAt(p, at);
    if w.Some? {
      var ws := WordsAt(p, at + 4, n - 1);
      if ws.Some? { assert got + ([w.value] + ws.value) == (got + [w.value]) + ws.value; }
    }
  }

  function ResumeModules(got: seq<ImageModule>, more: Result<seq<ImageModule>, ImageError>):
    Result<seq<ImageModule>, ImageError>
  {
    if more.Ok? then Ok(got + more.value) else more
  }

  lemma ResumeNoModules(more: Result<seq<ImageModule>, ImageError>)
    ensures ResumeModules([], more) == more
  {
    if more.Ok? { assert [] + more.value == more.value; }
  }

  lemma ModulesStep(p: Bytes, at: nat, count: nat, utf8: Bytes -> bool, got: seq<ImageModule>)
    requires count > 0
    ensures var w := WordsAt(p, at, ENTRY_WORDS);
            ResumeModules(got, ModulesAt(p, at, count, utf8))
            == if w.None? then Err(Truncated)
               else var m := ModuleAt(p, w.value, utf8);
                    if m.Err? then Err(m.error)
                    else ResumeModules(got + [m.value], ModulesAt(p, at + ENTRY_BYTES, count - 1, utf8))
  {
    hide WordsAt, ModuleAt;
    var w := WordsAt(p, at, ENTRY_WORDS);
    if w.Some? && ModuleAt(p, w.value, utf8).Ok? {
      var m := ModuleAt(p, w.value, utf8).value;
      var ms := ModulesAt(p, at + ENTRY_BYTES, count - 1, utf8);
      if ms.Ok? { assert got + ([m] + ms.value) == (got + [m]) + ms.value; }
    }
  }

  method ParseImage(b: Build, bytes: Bytes, utf8: Bytes -> bool) returns (r: Result<Image, ImageError>)
    ensures r == Parse(b, bytes, utf8)
  {
    hide Read, WordsAt, WordAt, StrAt, ModulesAt, Ascending;
    var payload := Read(b, StdBundle, bytes);
    if payload.Err? { return Err(Invalid(payload.error)); }
    var cursor := new Cursor(payload.value);
    var head := cursor.Words(3);
    if head.None? { return Err(Truncated); }
    var version := StrAt(payload.value, head.value[1], head.value[2], utf8);
    if version.Err? { return Err(version.error); }
    var count := cursor.Word();
    if count.None? { return Err(Truncated); }
    var modules := cursor.Modules(count.value, utf8);
    if modules.Err? { return Err(modules.error); }
    if !Ascending(modules.value) { return Err(NotSorted); }
    r := Ok(Image(Identity(bytes), version.value, head.value[0], modules.value));
  }

  // --- reading what was written ---------------------------------------------------------

  lemma WordReadsBack(p: Bytes, pre: Bytes, w: nat, post: Bytes)
    requires p == pre + Le(w, 4) + post && w < TWO_32
    ensures WordAt(p, |pre|) == Some(w)
  {
    hide Le, FromLe;
    SliceOfMiddle(pre, Le(w, 4), post);
    WordSizes();
    LeReadsBack(w, 4);
  }

  lemma WordsUnfold(p: Bytes, at: nat, n: nat, w: nat, ws: seq<nat>)
    requires WordAt(p, at) == Some(w) && n > 0 && WordsAt(p, at + 4, n - 1) == Some(ws)
    ensures WordsAt(p, at, n) == Some([w] + ws)
  {
    hide WordAt;
  }

  lemma {:induction false} WordsReadBack(pre: Bytes, ws: seq<nat>, post: Bytes)
    requires forall w :: w in ws ==> w < TWO_32
    ensures WordsAt(pre + WordBytes(ws) + post, |pre|, |ws|) == Some(ws)
    decreases |ws|
  {
    if ws != [] {
      hide Le, WordAt, WordsAt;
      var p := pre + WordBytes(ws) + post;
      var word, rest := Le(ws[0], 4), WordBytes(ws[1..]);
      assert ws[0] in ws && WordBytes(ws) == word + rest;
      hide WordBytes;
      TwoViews(p, pre, word, rest, post);
      forall w | w in ws[1..] ensures w < TWO_32 { assert w in ws; }
      WordsReadBack(pre + word, ws[1..], post);
      WordReadsBack(p, pre, ws[0], rest + post);
      WordsUnfold(p, |pre|, |ws|, ws[0], ws[1..]);
      assert [ws[0]] + ws[1..] == ws;
    }
  }

  lemma SectionReadsBack(p: Bytes, pre: Bytes, section: Bytes, post: Bytes)
    requires p == pre + section + post
    ensures BytesAt(p, |pre|, |section|) == Ok(section)
  {
    SliceOfMiddle(pre, section, post);
  }

  predicate Readable(m: ImageModule, utf8: Bytes -> bool) {
    utf8(m.id) && utf8(m.path) && utf8(m.source)
  }

  lemma ModuleReadsBack(p: Bytes, pre: Bytes, m: ImageModule, post: Bytes, utf8: Bytes -> bool)
    requires p == pre + Sections(m) + post && Readable(m, utf8)
    ensures ModuleAt(p, Entry(m, |pre|), utf8) == Ok(m)
  {
    hide BytesAt, Slice;
    var p1 := pre + m.id;
    var p2 := p1 + m.path;
    var p3 := p2 + m.interface;
    var p4 := p3 + m.bytecode;
    SectionsSplit(p, pre, m, post);
    SectionReadsBack(p, pre, m.id, m.path + m.interface + m.bytecode + m.source + post);
    SectionReadsBack(p, p1, m.path, m.interface + m.bytecode + m.source + post);
    SectionReadsBack(p, p2, m.interface, m.bytecode + m.source + post);
    SectionReadsBack(p, p3, m.bytecode, m.source + post);
    SectionReadsBack(p, p4, m.source, post);
  }

  lemma SectionsSplit(p: Bytes, pre: Bytes, m: ImageModule, post: Bytes)
    requires p == pre + Sections(m) + post
    ensures p == pre + m.id + (m.path + m.interface + m.bytecode + m.source + post)
    ensures p == pre + m.id + m.path + (m.interface + m.bytecode + m.source + post)
    ensures p == pre + m.id + m.path + m.interface + (m.bytecode + m.source + post)
    ensures p == pre + m.id + m.path + m.interface + m.bytecode + (m.source + post)
    ensures p == pre + m.id + m.path + m.interface + m.bytecode + m.source + post
  {
  }

  lemma {:induction false} WordBytesJoin(a: seq<nat>, b: seq<nat>)
    ensures WordBytes(a + b) == WordBytes(a) + WordBytes(b)
  {
    hide Le;
    if a == [] {
      assert a + b == b;
    } else {
      WordBytesJoin(a[1..], b);
      assert (a + b)[1..] == a[1..] + b;
    }
  }

  lemma EntryFits(m: ImageModule, off: nat)
    requires off + |Sections(m)| < TWO_32
    ensures forall w :: w in Entry(m, off) ==> w < TWO_32
  {
  }

  /** The first of the modules whose table stands at `|a|` and whose sections stand at `|pre|`. */
  lemma FirstReadsBack(p: Bytes, a: Bytes, m: ImageModule, more: Bytes, c: Bytes, pre: Bytes, rest: Bytes, post: Bytes,
                       utf8: Bytes -> bool)
    requires p == a + WordBytes(Entry(m, |pre|)) + (more + c) && p == pre + Sections(m) + (rest + post)
    requires |p| < TWO_32 && Readable(m, utf8)
    ensures WordsAt(p, |a|, ENTRY_WORDS) == Some(Entry(m, |pre|))
    ensures ModuleAt(p, Entry(m, |pre|), utf8) == Ok(m)
  {
    hide Entry, Sections, ModuleAt, WordsAt, WordBytes, Readable;
    EntryFits(m, |pre|);
    WordsReadBack(a, Entry(m, |pre|), more + c);
    ModuleReadsBack(p, pre, m, rest + post, utf8);
  }

  predicate AllReadable(ms: seq<ImageModule>, utf8: Bytes -> bool) {
    forall m :: m in ms ==> Readable(m, utf8)
  }

  lemma ReadableParts(ms: seq<ImageModule>, utf8: Bytes -> bool)
    requires AllReadable(ms, utf8) && ms != []
    ensures Readable(ms[0], utf8) && AllReadable(ms[1..], utf8)
  {
  }

  lemma ModulesUnfold(p: Bytes, at: nat, utf8: Bytes -> bool, w: seq<nat>, ms: seq<ImageModule>)
    requires |w| == ENTRY_WORDS && ms != []
    requires WordsAt(p, at, ENTRY_WORDS) == Some(w) && ModuleAt(p, w, utf8) == Ok(ms[0])
    requires ModulesAt(p, at + ENTRY_BYTES, |ms| - 1, utf8) == Ok(ms[1..])
    ensures ModulesAt(p, at, |ms|, utf8) == Ok(ms)
  {
    hide WordsAt, ModuleAt;
    assert [ms[0]] + ms[1..] == ms;
  }

  lemma NoModules(p: Bytes, at: nat, utf8: Bytes -> bool)
    ensures ModulesAt(p, at, 0, utf8) == Ok([])
  {
  }

  predicate TableAt(p: Bytes, a: Bytes, c: Bytes, off: nat, ms: seq<ImageModule>) {
    p == a + WordBytes(Entries(ms, off)) + c
  }

  predicate BlobAt(p: Bytes, pre: Bytes, post: Bytes, ms: seq<ImageModule>) {
    p == pre + Blob(ms) + post
  }

  lemma ViewsOfTable(p: Bytes, a: Bytes, c: Bytes, off: nat, ms: seq<ImageModule>)
    requires TableAt(p, a, c, off, ms) && ms != []
    ensures var next := off + |Sections(ms[0])|;
            var entry := WordBytes(Entry(ms[0], off));
            && p == a + entry + (WordBytes(Entries(ms[1..], next)) + c)
            && TableAt(p, a + entry, c, next, ms[1..]) && |entry| == ENTRY_BYTES
  {
    hide Entry, Sections, Entries, WordBytes, Blob;
    var next := off + |Sections(ms[0])|;
    EntriesUnfold(ms, off);
    WordBytesJoin(Entry(ms[0], off), Entries(ms[1..], next));
    TwoViews(p, a, WordBytes(Entry(ms[0], off)), WordBytes(Entries(ms[1..], next)), c);
  }

  lemma ViewsOfBlob(p: Bytes, pre: Bytes, post: Bytes, ms: seq<ImageModule>)
    requires BlobAt(p, pre, post, ms) && ms != []
    ensures p == pre + Sections(ms[0]) + (Blob(ms[1..]) + post)
    ensures BlobAt(p, pre + Sections(ms[0]), post, ms[1..])
  {
    hide Entry, Sections, Entries, Blob;
    EntriesUnfold(ms, 0);
    TwoViews(p, pre, Sections(ms[0]), Blob(ms[1..]), post);
  }

  /** The table entries stand at `|a|` and the sections at `|pre|`. */
  lemma {:induction false} ModulesReadBack(p: Bytes, a: Bytes, c: Bytes, pre: Bytes, ms: seq<ImageModule>, post: Bytes,
                                           utf8: Bytes -> bool)
    requires TableAt(p, a, c, |pre|, ms) && BlobAt(p, pre, post, ms) && |p| < TWO_32 && AllReadable(ms, utf8)
    ensures ModulesAt(p, |a|, |ms|, utf8) == Ok(ms)
    decreases |ms|
  {
    hide *;
    if ms == [] {
      NoModules(p, |a|, utf8);
    } else {
      var m := ms[0];
      var entry := WordBytes(Entry(m, |pre|));
      ViewsOfTable(p, a, c, |pre|, ms);
      ViewsOfBlob(p, pre, post, ms);
      ReadableParts(ms, utf8);
      FirstReadsBack(p, a, m, WordBytes(Entries(ms[1..], |pre| + |Sections(m)|)), c, pre, Blob(ms[1..]), post, utf8);
      ModulesReadBack(p, a + entry, c, pre + Sections(m), ms[1..], post, utf8);
      ModulesUnfold(p, |a|, utf8, Entry(m, |pre|), ms);
    }
  }

  lemma TwoViews(p: Bytes, a: Bytes, x: Bytes, y: Bytes, c: Bytes)
    requires p == a + (x + y) + c
    ensures p == a + x + (y + c) && p == (a + x) + y + c
  {
  }

  /** Every field of the payload is read back from where the table says it is. */
  lemma PayloadReadsBack(version: Bytes, host: nat, ms: seq<ImageModule>, identity: nat, utf8: Bytes -> bool)
    requires host < TWO_32 && |Payload(version, host, ms)| < TWO_32
    requires utf8(version) && AllReadable(ms, utf8)
    ensures ParsePayload(Payload(version, host, ms), identity, utf8)
         == if Ascending(ms) then Ok(Image(identity, version, host, ms)) else Err(NotSorted)
  {
    hide WordBytes, Entries, Blob, ModulesAt, WordsAt, WordAt, AllReadable, Ascending;
    var p := Payload(version, host, ms);
    var n, base := |ms|, Base(|ms|);
    var first, entries := [host, base, |version|], Entries(ms, base + |version|);
    var three, one, table := WordBytes(first), WordBytes([n]), WordBytes(entries);
    var blob := Blob(ms);
    assert Table(version, host, ms) == first + ([n] + entries);
    WordBytesJoin(first, [n] + entries);
    WordBytesJoin([n], entries);
    assert p == three + (one + table) + version + blob;
    HeadViews(p, three, one, table, version, blob);
    WordsReadBack([], first, one + table + version + blob);
    WordsReadBack(three, [n], table + version + blob);
    OneWord(p, |three|, n);
    SectionReadsBack(p, three + one + table, version, blob);
    ModulesReadBack(p, three + one, version + blob, three + one + table + version, ms, [], utf8);
  }

  lemma HeadViews(p: Bytes, three: Bytes, one: Bytes, table: Bytes, version: Bytes, blob: Bytes)
    requires p == three + (one + table) + version + blob
    ensures p == [] + three + (one + table + version + blob)
    ensures p == three + one + (table + version + blob)
    ensures p == (three + one) + table + (version + blob)
    ensures p == (three + one + table) + version + blob
    ensures p == (three + one + table + version) + blob + []
  {
  }

  lemma OneWord(p: Bytes, at: nat, n: nat)
    requires WordsAt(p, at, 1) == Some([n])
    ensures WordAt(p, at) == Some(n)
  {
    assert WordsAt(p, at + 4, 0) == Some([]);
    var w := WordAt(p, at);
    assert w.Some?;
    assert [w.value] + [] == [w.value];
    assert [w.value][0] == [n][0];
  }

  // --- the order of the table ------------------------------------------------------------

  function Ids(ms: seq<ImageModule>): set<Bytes> {
    if ms == [] then {} else {ms[0].id} + Ids(ms[1..])
  }

  predicate DistinctIds(ms: seq<ImageModule>) {
    ms != [] ==> ms[0].id !in Ids(ms[1..]) && DistinctIds(ms[1..])
  }

  lemma {:induction false} InsertKeepsDistinct(x: ImageModule, ms: seq<ImageModule>)
    ensures Ids(InsertBy(x, ms, Key)) == Ids(ms) + {x.id}
    ensures DistinctIds(InsertBy(x, ms, Key)) <==> DistinctIds(ms) && x.id !in Ids(ms)
  {
    hide AtMost;
    var r := InsertBy(x, ms, Key);
    if ms == [] || AtMost(Key(x), Key(ms[0])) {
      assert r[1..] == ms;
    } else {
      InsertKeepsDistinct(x, ms[1..]);
      assert r[1..] == InsertBy(x, ms[1..], Key);
    }
  }

  lemma {:induction false} SortKeepsDistinct(ms: seq<ImageModule>)
    ensures Ids(SortBy(ms, Key)) == Ids(ms)
    ensures DistinctIds(SortBy(ms, Key)) <==> DistinctIds(ms)
  {
    if ms != [] {
      SortKeepsDistinct(ms[1..]);
      InsertKeepsDistinct(ms[0], SortBy(ms[1..], Key));
    }
  }

  lemma {:induction false} IdAt(ms: seq<ImageModule>, id: Bytes) returns (k: nat)
    requires id in Ids(ms)
    ensures k < |ms| && ms[k].id == id
  {
    if ms[0].id == id { k := 0; } else { k := IdAt(ms[1..], id); k := k + 1; }
  }

  lemma {:induction false} IdIn(ms: seq<ImageModule>, k: nat)
    requires k < |ms|
    ensures ms[k].id in Ids(ms)
  {
    if k > 0 { IdIn(ms[1..], k - 1); }
  }

  lemma {:induction false} AscendingPairs(ms: seq<ImageModule>, i: nat, j: nat)
    requires Ascending(ms) && i < j < |ms|
    ensures Below(Key(ms[i]), Key(ms[j]))
    decreases j
  {
    assert Below(Key(ms[j - 1]), Key(ms[j]));
    if i < j - 1 {
      AscendingPairs(ms, i, j - 1);
      BelowIsTransitive(Key(ms[i]), Key(ms[j - 1]), Key(ms[j]));
    }
  }

  lemma {:induction false} AscendingIsDistinct(ms: seq<ImageModule>)
    requires Ascending(ms)
    ensures DistinctIds(ms)
  {
    if ms != [] {
      if ms[0].id in Ids(ms[1..]) {
        var k := IdAt(ms[1..], ms[0].id);
        AscendingPairs(ms, 0, k + 1);
        BelowIsIrreflexive(ms[0].id);
      }
      AscendingTail(ms);
      AscendingIsDistinct(ms[1..]);
    }
  }

  lemma AscendingTail(ms: seq<ImageModule>)
    requires Ascending(ms) && ms != []
    ensures Ascending(ms[1..])
  {
    var t := ms[1..];
    forall i | 0 < i < |t| ensures Below(Key(t[i - 1]), Key(t[i])) {
      assert Below(Key(ms[i + 1 - 1]), Key(ms[i + 1]));
    }
  }

  lemma {:induction false} DistinctPairs(ms: seq<ImageModule>, i: nat, j: nat)
    requires DistinctIds(ms) && i < j < |ms|
    ensures ms[i].id != ms[j].id
  {
    if i == 0 { IdIn(ms[1..], j - 1); } else { DistinctPairs(ms[1..], i - 1, j - 1); }
  }

  lemma SortedIsAscending(modules: seq<ImageModule>)
    ensures Ascending(SortBy(modules, Key)) <==> DistinctIds(modules)
  {
    var ms := SortBy(modules, Key);
    SortKeepsDistinct(modules);
    if DistinctIds(modules) {
      SortBySorts(modules, Key);
      forall i | 0 < i < |ms| ensures Below(Key(ms[i - 1]), Key(ms[i])) {
        DistinctPairs(ms, i - 1, i);
        BelowIsTotal(Key(ms[i - 1]), Key(ms[i]));
      }
    }
    if Ascending(ms) { AscendingIsDistinct(ms); }
  }

  // --- lookup --------------------------------------------------------------------------------

  /** The first module with the id. */
  function Find(ms: seq<ImageModule>, id: Bytes): Option<ImageModule> {
    if ms == [] then None else if ms[0].id == id then Some(ms[0]) else Find(ms[1..], id)
  }

  lemma {:induction false} FindNone(ms: seq<ImageModule>, id: Bytes)
    requires forall k :: 0 <= k < |ms| ==> ms[k].id != id
    ensures Find(ms, id) == None
  {
    if ms != [] { FindNone(ms[1..], id); }
  }

  lemma {:induction false} FindAt(ms: seq<ImageModule>, k: nat)
    requires k < |ms| && DistinctIds(ms)
    ensures Find(ms, ms[k].id) == Some(ms[k])
  {
    if k > 0 {
      IdIn(ms[1..], k - 1);
      FindAt(ms[1..], k - 1);
    }
  }

  /** Binary search in the sorted table agrees with a linear search. */
  method Lookup(ms: seq<ImageModule>, id: Bytes) returns (r: Option<ImageModule>)
    requires Ascending(ms)
    ensures r == Find(ms, id)
  {
    var lo, hi := 0, |ms|;
    while lo < hi
      invariant 0 <= lo <= hi <= |ms|
      invariant forall k :: 0 <= k < lo ==> ms[k].id != id
      invariant forall k :: hi <= k < |ms| ==> ms[k].id != id
    {
      var mid := (lo + hi) / 2;
      if ms[mid].id == id {
        AscendingIsDistinct(ms);
        FindAt(ms, mid);
        return Some(ms[mid]);
      }
      BelowIsTotal(Key(ms[mid]), id);
      if Below(ms[mid].id, id) {
        forall k | 0 <= k <= mid ensures ms[k].id != id { NotBelow(ms, k, mid, id); }
        lo := mid + 1;
      } else {
        forall k | mid <= k < |ms| ensures ms[k].id != id { NotAbove(ms, mid, k, id); }
        hi := mid;
      }
    }
    FindNone(ms, id);
    r := None;
  }

  lemma NotBelow(ms: seq<ImageModule>, k: nat, mid: nat, id: Bytes)
    requires Ascending(ms) && k <= mid < |ms| && Below(ms[mid].id, id)
    ensures ms[k].id != id
  {
    BelowIsIrreflexive(id);
    if k < mid {
      AscendingPairs(ms, k, mid);
      BelowIsTransitive(Key(ms[k]), Key(ms[mid]), id);
    }
  }

  lemma NotAbove(ms: seq<ImageModule>, mid: nat, k: nat, id: Bytes)
    requires Ascending(ms) && mid <= k < |ms| && Below(id, ms[mid].id)
    ensures ms[k].id != id
  {
    BelowIsIrreflexive(id);
    if mid < k {
      AscendingPairs(ms, mid, k);
      BelowIsTransitive(id, Key(ms[mid]), Key(ms[k]));
    }
  }

  // --- main results ----------------------------------------------------------------------------

  function Written(b: Build, version: Bytes, host: nat, modules: seq<ImageModule>): Bytes {
    Envelope(b, StdBundle, Distributable, Payload(version, host, SortBy(modules, Key)))
  }

  /** A written image parses back, in order of id, exactly when the ids are distinct. */
  lemma ParsesWhatWasWritten(b: Build, version: Bytes, host: nat, modules: seq<ImageModule>, utf8: Bytes -> bool)
    requires Fits(b) && host < TWO_32
    requires |Payload(version, host, SortBy(modules, Key))| < TWO_32
    requires utf8(version) && AllReadable(modules, utf8)
    ensures var ms := SortBy(modules, Key);
            Parse(b, Written(b, version, host, modules), utf8)
            == if DistinctIds(modules)
               then Ok(Image(b.fingerprint(Payload(version, host, ms)), version, host, ms))
               else Err(NotSorted)
  {
    hide Read, Envelope, Payload, Readable, Ascending, DistinctIds, ParsePayload, Identity;
    var ms := SortBy(modules, Key);
    var p := Payload(version, host, ms);
    SortByKeeps(modules, Key);
    forall m | m in ms ensures Readable(m, utf8) {
      assert m in multiset(ms);
      assert m in multiset(modules);
      assert m in modules;
    }
    ReadWritten(b, StdBundle, Distributable, p);
    PayloadReadsBack(version, host, ms, b.fingerprint(p), utf8);
    SortedIsAscending(modules);
  }

  /** Every module that went in is found under its id in what comes out. */
  lemma FindsEveryModule(modules: seq<ImageModule>, m: ImageModule)
    requires DistinctIds(modules) && m in modules
    ensures Find(SortBy(modules, Key), m.id) == Some(m)
  {
    var ms := SortBy(modules, Key);
    SortByKeeps(modules, Key);
    assert m in multiset(modules);
    assert m in multiset(ms);
    var k :| 0 <= k < |ms| && ms[k] == m;
    SortKeepsDistinct(modules);
    FindAt(ms, k);
  }
}
