/**
  * The registry of compiled code (stack_roots.rs): which function owns an address,
  * and which stack slots hold roots in the frames of compiled code.
  */
module StackRoots {
  import opened Wrappers
  import opened LexOrder

  const TWO_32 := 0x1_0000_0000

  datatype Safepoint = Safepoint(returnOffset: nat, slots: seq<nat>)
  datatype Location = Location(from: nat, ip: nat)
  datatype CodeRange = CodeRange(end: nat, sites: seq<Safepoint>, locations: seq<Location>, owner: nat)
  datatype CodeLocation = CodeLocation(owner: nat, ip: nat)

  type Registry = map<nat, CodeRange>

  function SiteKey(s: Safepoint): seq<int> {
    [s.returnOffset]
  }

  function LocationKey(l: Location): seq<int> {
    [l.from]
  }

  // --- ranges -----------------------------------------------------------------

  predicate Contains(code: Registry, start: nat, address: nat)
    requires start in code
  {
    start <= address < code[start].end
  }

  /** Every range holds code, and no two share an address. */
  ghost predicate Disjoint(code: Registry) {
    && (forall s :: s in code ==> s < code[s].end)
    && (forall s, t, a: nat :: s in code && t in code && Contains(code, s, a) && Contains(code, t, a) ==> s == t)
  }

  /** The greatest start not above the address: `range(..=address).next_back()`. */
  predicate IsFloor(code: Registry, address: nat, start: nat) {
    start in code && start <= address && forall t :: t in code && t <= address ==> t <= start
  }

  function Floor(code: Registry, address: nat): (r: Option<nat>)
    ensures r.Some? ==> IsFloor(code, address, r.value)
  {
    if exists s :: s in code && IsFloor(code, address, s) then
      var s :| s in code && IsFloor(code, address, s);
      Some(s)
    else None
  }

  lemma {:induction false} FloorExists(code: Registry, address: nat, starts: set<nat>) returns (s: nat)
    requires starts <= code.Keys && starts != {} && forall t :: t in starts ==> t <= address
    ensures s in starts && forall t :: t in starts ==> t <= s
    decreases starts
  {
    s :| s in starts;
    if starts != {s} {
      var t := FloorExists(code, address, starts - {s});
      assert starts == {s} + (starts - {s});
      if s < t { s := t; }
    }
  }

  /** Inside a range, the greatest start is its own exactly when no range, even an empty one, begins behind it. */
  lemma FloorIffNothingBetween(code: Registry, start: nat, address: nat)
    requires start in code && start <= address
    ensures Floor(code, address) == Some(start) <==> forall t :: t in code && t <= address ==> t <= start
  {
    if forall t :: t in code && t <= address ==> t <= start {
      assert IsFloor(code, address, start);
    }
  }

  /** Finding the floor and comparing with its end is scanning every range. */
  lemma FloorIsScan(code: Registry, address: nat)
    requires Disjoint(code)
    ensures var f := Floor(code, address);
            && (f.Some? && Contains(code, f.value, address) <==> exists s :: s in code && Contains(code, s, address))
            && forall s :: s in code && Contains(code, s, address) ==> f == Some(s)
  {
    forall s | s in code && Contains(code, s, address) ensures Floor(code, address) == Some(s) {
      var below := set t | t in code && t <= address;
      assert s in below;
      var top := FloorExists(code, address, below);
      forall t | t in code && t <= address ensures t <= top { assert t in below; }
      assert IsFloor(code, address, top);
      var f := Floor(code, address).value;
      // A later start inside a range would overlap it.
      assert Contains(code, s, f) && Contains(code, f, f);
    }
  }

  // --- the table of locations ---------------------------------------------------------

  /** A linear scan for the entry with the greatest start up to `off`; of equal ones the last. */
  function Scan(ls: seq<Location>, off: nat): Option<Location> {
    if ls == [] then None else Better(ls[0], off, Scan(ls[1..], off))
  }

  function Better(l: Location, off: nat, rest: Option<Location>): Option<Location> {
    if l.from <= off && (rest.None? || rest.value.from < l.from) then Some(l) else rest
  }

  lemma OneKey(a: int, b: int)
    ensures AtMost([a], [b]) <==> a <= b
  {
    assert [a][1..] == [] && [b][1..] == [];
    assert Below([b], [a]) <==> b < a || (b == a && Below([b][1..], [a][1..]));
  }

  lemma {:induction false} ScanInserted(l: Location, ls: seq<Location>, off: nat)
    ensures Scan(InsertBy(l, ls, LocationKey), off) == Better(l, off, Scan(ls, off))
  {
    var r := InsertBy(l, ls, LocationKey);
    if ls == [] || AtMost(LocationKey(l), LocationKey(ls[0])) {
      assert r[1..] == ls;
    } else {
      ScanInserted(l, ls[1..], off);
      OneKey(l.from, ls[0].from);
      assert r[1..] == InsertBy(l, ls[1..], LocationKey);
      assert ls[0].from < l.from;
    }
  }

  /** Sorting the table when it is registered does not change what a scan of it finds. */
  lemma {:induction false} ScanSorted(ls: seq<Location>, off: nat)
    ensures Scan(SortBy(ls, LocationKey), off) == Scan(ls, off)
  {
    if ls != [] {
      ScanSorted(ls[1..], off);
      ScanInserted(ls[0], SortBy(ls[1..], LocationKey), off);
    }
  }

  predicate SortedLocations(ls: seq<Location>) {
    forall i, j :: 0 <= i < j < |ls| ==> ls[i].from <= ls[j].from
  }

  lemma SortGivesOrder(ls: seq<Location>)
    ensures SortedLocations(SortBy(ls, LocationKey))
  {
    SortBySorts(ls, LocationKey);
    var r := SortBy(ls, LocationKey);
    forall i, j | 0 <= i < j < |r| ensures r[i].from <= r[j].from {
      assert AtMost(LocationKey(r[i]), LocationKey(r[j]));
    }
  }

  /** How many entries of a sorted table start at or before `off`. */
  method PartitionPoint(ls: seq<Location>, off: nat) returns (at: nat)
    requires SortedLocations(ls)
    ensures at <= |ls|
    ensures forall i :: 0 <= i < at ==> ls[i].from <= off
    ensures forall i :: at <= i < |ls| ==> off < ls[i].from
  {
    at := 0;
    var hi := |ls|;
    while at < hi
      invariant 0 <= at <= hi <= |ls|
      invariant forall i :: 0 <= i < at ==> ls[i].from <= off
      invariant forall i :: hi <= i < |ls| ==> off < ls[i].from
    {
      var mid := (at + hi) / 2;
      if ls[mid].from <= off { at := mid + 1; } else { hi := mid; }
    }
  }

  lemma {:induction false} ScanAtPartition(ls: seq<Location>, at: nat, off: nat)
    requires SortedLocations(ls) && at <= |ls|
    requires forall i :: 0 <= i < at ==> ls[i].from <= off
    requires forall i :: at <= i < |ls| ==> off < ls[i].from
    ensures Scan(ls, off) == if at == 0 then None else Some(ls[at - 1])
  {
    if ls == [] {
    } else if at == 0 {
      ScanAtPartition(ls[1..], 0, off);
    } else {
      ScanAtPartition(ls[1..], at - 1, off);
    }
  }

  // --- safepoints ---------------------------------------------------------------------------

  predicate SortedSites(ss: seq<Safepoint>) {
    forall i, j :: 0 <= i < j < |ss| ==> ss[i].returnOffset <= ss[j].returnOffset
  }

  predicate Mentions(ss: seq<Safepoint>, off: nat) {
    exists s :: s in ss && s.returnOffset == off
  }

  /** `slots` is what a table records for a return offset: one of its records for it, and nothing when it has none. */
  predicate Records(ss: seq<Safepoint>, off: nat, slots: seq<nat>) {
    if Mentions(ss, off) then Safepoint(off, slots) in ss else slots == []
  }

  /** No return offset has two records with different slots. */
  predicate OneRecordEach(ss: seq<Safepoint>) {
    forall s, t :: s in ss && t in ss && s.returnOffset == t.returnOffset ==> s == t
  }

  lemma RecordIsUnique(ss: seq<Safepoint>, off: nat, slots: seq<nat>, others: seq<nat>)
    requires OneRecordEach(ss) && Records(ss, off, slots) && Records(ss, off, others)
    ensures slots == others
  {
    if Mentions(ss, off) {
      var s, t := Safepoint(off, slots), Safepoint(off, others);
      assert s in ss && t in ss && s.returnOffset == t.returnOffset;
    }
  }

  lemma SameMembers(ss: seq<Safepoint>, s: Safepoint)
    ensures s in SortBy(ss, SiteKey) <==> s in ss
  {
    SortByKeeps(ss, SiteKey);
    assert s in multiset(SortBy(ss, SiteKey)) <==> s in multiset(ss);
  }

  /** Sorting the safepoints keeps what they record for every return offset. */
  lemma SitesSorted(ss: seq<Safepoint>, off: nat, slots: seq<nat>)
    ensures Records(SortBy(ss, SiteKey), off, slots) <==> Records(ss, off, slots)
  {
    var r := SortBy(ss, SiteKey);
    forall s ensures s in r <==> s in ss { SameMembers(ss, s); }
  }

  lemma SortedSitesOf(ss: seq<Safepoint>)
    ensures SortedSites(SortBy(ss, SiteKey))
  {
    SortBySorts(ss, SiteKey);
    var r := SortBy(ss, SiteKey);
    forall i, j | 0 <= i < j < |r| ensures r[i].returnOffset <= r[j].returnOffset {
      assert AtMost(SiteKey(r[i]), SiteKey(r[j]));
    }
  }

  /** Binary search for a return offset. */
  method SlotsFor(ss: seq<Safepoint>, off: nat) returns (slots: seq<nat>)
    requires SortedSites(ss)
    ensures Records(ss, off, slots)
  {
    var lo, hi := 0, |ss|;
    while lo < hi
      invariant 0 <= lo <= hi <= |ss|
      invariant forall k :: 0 <= k < lo ==> ss[k].returnOffset < off
      invariant forall k :: hi <= k < |ss| ==> off < ss[k].returnOffset
    {
      var mid := (lo + hi) / 2;
      if ss[mid].returnOffset == off {
        assert ss[mid] == Safepoint(off, ss[mid].slots);
        return ss[mid].slots;
      } else if ss[mid].returnOffset < off {
        lo := mid + 1;
      } else {
        hi := mid;
      }
    }
    slots := [];
  }

  // --- frames -------------------------------------------------------------------------------

  datatype Frame = Frame(sp: nat, fp: nat, ra: nat)

  /** The frame that called `f`: the words at its frame pointer hold the older pointer and the return address. */
  function Caller(memory: nat -> nat, f: Frame): Frame {
    Frame(f.fp + 16, memory(f.fp), memory(f.fp + 8))
  }

  predicate Compiled(code: Registry, ra: nat) {
    var f := Floor(code, ra);
    f.Some? && ra < code[f.value].end
  }

  /** The frame `n` callers up. */
  function FrameAt(memory: nat -> nat, f: Frame, n: nat): Frame {
    if n == 0 then f else Caller(memory, FrameAt(memory, f, n - 1))
  }

  /** `slots` is what the code holding the return address records for it. */
  predicate FrameRecords(code: Registry, f: Frame, slots: seq<nat>) {
    Compiled(code, f.ra) &&
    var start := Floor(code, f.ra).value;
    Records(code[start].sites, (f.ra - start) % TWO_32, slots)
  }

  /** `recorded` is what is recorded for the compiled frames, innermost first, up to the first other one. */
  predicate Walked(code: Registry, memory: nat -> nat, f: Frame, recorded: seq<seq<nat>>) {
    FramesRecord(code, memory, f, recorded) && !Compiled(code, FrameAt(memory, f, |recorded|).ra)
  }

  predicate FramesRecord(code: Registry, memory: nat -> nat, f: Frame, recorded: seq<seq<nat>>) {
    forall i :: 0 <= i < |recorded| ==> FrameRecords(code, FrameAt(memory, f, i), recorded[i])
  }

  predicate LeavesAfter(code: Registry, memory: nat -> nat, f: Frame, n: nat) {
    && (forall i :: 0 <= i < n ==> Compiled(code, FrameAt(memory, f, i).ra))
    && !Compiled(code, FrameAt(memory, f, n).ra)
  }

  function Placed(sp: nat, slots: seq<nat>): seq<nat> {
    seq(|slots|, i requires 0 <= i < |slots| => sp + slots[i])
  }

  /** The addresses of the recorded slots in their frames. */
  function RootsOf(memory: nat -> nat, f: Frame, recorded: seq<seq<nat>>): seq<nat> {
    if recorded == [] then []
    else
      var n := |recorded| - 1;
      RootsOf(memory, f, recorded[..n]) + Placed(FrameAt(memory, f, n).sp, recorded[n])
  }

  lemma NoFrames(code: Registry, memory: nat -> nat, f: Frame)
    ensures FramesRecord(code, memory, f, []) && RootsOf(memory, f, []) == []
  {
  }

  lemma OneFrameMore(code: Registry, memory: nat -> nat, f: Frame, recorded: seq<seq<nat>>, slots: seq<nat>)
    requires FramesRecord(code, memory, f, recorded)
    requires FrameRecords(code, FrameAt(memory, f, |recorded|), slots)
    ensures FramesRecord(code, memory, f, recorded + [slots])
    ensures RootsOf(memory, f, recorded + [slots])
         == RootsOf(memory, f, recorded) + Placed(FrameAt(memory, f, |recorded|).sp, slots)
  {
    hide FrameRecords, Placed;
    assert (recorded + [slots])[..|recorded|] == recorded;
  }

  function Locating(code: Registry, address: nat): Option<CodeLocation> {
    var f := Floor(code, address);
    if f.None? || address >= code[f.value].end then None
    else
      var l := Scan(code[f.value].locations, (address - f.value) % TWO_32);
      if l.None? then None else Some(CodeLocation(code[f.value].owner, l.value.ip))
  }

  class CodeRegistry {
    var code: Registry

    /** Every table is sorted. */
    ghost predicate Valid()
      reads this
    {
      forall s :: s in code ==> SortedLocations(code[s].locations) && SortedSites(code[s].sites)
    }

    constructor ()
      ensures Valid() && code == map[] && Disjoint(code)
    {
      code := map[];
    }

    method Register(start: nat, len: nat, sites: seq<Safepoint>, locations: seq<Location>, owner: nat)
      requires Valid()
      modifies this
      ensures Valid()
      ensures code == old(code)[start := CodeRange(start + len, SortBy(sites, SiteKey),
                                                   SortBy(locations, LocationKey), owner)]
    {
      SortedSitesOf(sites);
      SortGivesOrder(locations);
      code := code[start := CodeRange(start + len, SortBy(sites, SiteKey), SortBy(locations, LocationKey), owner)];
    }

    method Unregister(start: nat)
      requires Valid()
      modifies this
      ensures Valid()
      ensures code == old(code) - {start}
    {
      code := code - {start};
    }

    method Locate(address: nat) returns (r: Option<CodeLocation>)
      requires Valid()
      ensures r == Locating(code, address)
    {
      var f := Floor(code, address);
      if f.None? { return None; }
      var range := code[f.value];
      if address >= range.end { return None; }
      var offset := (address - f.value) % TWO_32;
      var at := PartitionPoint(range.locations, offset);
      ScanAtPartition(range.locations, at, offset);
      if at == 0 { return None; }
      r := Some(CodeLocation(range.owner, range.locations[at - 1].ip));
    }

    method VisitFrame(f: Frame) returns (visited: seq<nat>, ghost slots: seq<nat>)
      requires Valid() && Compiled(code, f.ra)
      ensures FrameRecords(code, f, slots) && visited == Placed(f.sp, slots)
    {
      hide Records;
      var start := Floor(code, f.ra).value;
      var found := SlotsFor(code[start].sites, (f.ra - start) % TWO_32);
      slots := found;
      visited := [];
      for i := 0 to |found|
        invariant visited == Placed(f.sp, found)[..i]
      {
        visited := visited + [f.sp + found[i]];
      }
    }

    /**
      * Walks the frame chain from an exit, `depth` compiled frames below the first other
      * one, and visits exactly the slots recorded for those frames.
      */
    method ForEachSlot(memory: nat -> nat, sp: nat, fp: nat, ghost depth: nat)
      returns (visited: seq<nat>, ghost recorded: seq<seq<nat>>)
      requires Valid()
      requires sp != 0 ==> sp >= 8 && LeavesAfter(code, memory, Frame(sp, fp, memory(sp - 8)), depth)
      ensures sp == 0 ==> visited == []
      ensures sp != 0 ==>
                var start := Frame(sp, fp, memory(sp - 8));
                Walked(code, memory, start, recorded) && visited == RootsOf(memory, start, recorded)
    {
      hide FrameRecords, Compiled, Placed, FramesRecord, RootsOf;
      visited, recorded := [], [];
      if sp == 0 { return; }
      var f := Frame(sp, fp, memory(sp - 8));
      ghost var start := f;
      NoFrames(code, memory, f);
      while Compiled(code, f.ra)
        invariant |recorded| <= depth && f == FrameAt(memory, start, |recorded|)
        invariant FramesRecord(code, memory, start, recorded) && visited == RootsOf(memory, start, recorded)
        decreases depth - |recorded|
      {
        ghost var slots;
        var addresses;
        addresses, slots := VisitFrame(f);
        OneFrameMore(code, memory, start, recorded, slots);
        visited := visited + addresses;
        recorded := recorded + [slots];
        f := Caller(memory, f);
      }
    }
  }

  // --- main results ------------------------------------------------------------------------

  /** A range apart from all others keeps them apart. */
  lemma RegistryStaysDisjoint(code: Registry, start: nat, range: CodeRange)
    requires Disjoint(code) && start < range.end
    requires forall s, a: nat :: s in code && s != start && Contains(code, s, a) ==> !(start <= a < range.end)
    ensures Disjoint(code[start := range])
  {
    var grown := code[start := range];
    forall s, t, a: nat | s in grown && t in grown && Contains(grown, s, a) && Contains(grown, t, a) ensures s == t {
      if s != start { assert Contains(code, s, a); }
      if t != start { assert Contains(code, t, a); }
    }
  }

  lemma RemovalStaysDisjoint(code: Registry, start: nat)
    requires Disjoint(code)
    ensures Disjoint(code - {start})
  {
    var shrunk := code - {start};
    forall t, u, a: nat | t in shrunk && u in shrunk && Contains(shrunk, t, a) && Contains(shrunk, u, a)
      ensures t == u {
      assert Contains(code, t, a) && Contains(code, u, a);
    }
  }

  /** `locations` is any arrangement whose sorting the registry holds: locating scans it linearly. */
  lemma LocateIsLinearScan(code: Registry, address: nat, start: nat, locations: seq<Location>)
    requires Disjoint(code) && start in code && code[start].locations == SortBy(locations, LocationKey)
    requires Contains(code, start, address)
    ensures Locating(code, address)
         == match Scan(locations, (address - start) % TWO_32)
            case None => None
            case Some(l) => Some(CodeLocation(code[start].owner, l.ip))
  {
    FloorIsScan(code, address);
    ScanSorted(locations, (address - start) % TWO_32);
  }

  lemma LocateOutside(code: Registry, address: nat)
    requires Disjoint(code) && forall s :: s in code ==> !Contains(code, s, address)
    ensures Locating(code, address) == None && !Compiled(code, address)
  {
    FloorIsScan(code, address);
  }

  lemma CompiledIffContained(code: Registry, ra: nat)
    requires Disjoint(code)
    ensures Compiled(code, ra) <==> exists s :: s in code && Contains(code, s, ra)
  {
    FloorIsScan(code, ra);
  }

  /** What a frame of some code may be said to record is what the safepoints it was registered with record. */
  lemma FrameRecordsRegistered(code: Registry, f: Frame, start: nat, sites: seq<Safepoint>, slots: seq<nat>)
    requires Disjoint(code) && start in code && Contains(code, start, f.ra)
    requires code[start].sites == SortBy(sites, SiteKey)
    ensures FrameRecords(code, f, slots) <==> Records(sites, (f.ra - start) % TWO_32, slots)
  {
    FloorIsScan(code, f.ra);
    SitesSorted(sites, (f.ra - start) % TWO_32, slots);
  }

  lemma FrameRecordIsUnique(code: Registry, f: Frame, slots: seq<nat>, others: seq<nat>)
    requires FrameRecords(code, f, slots) && FrameRecords(code, f, others)
    requires forall s :: s in code ==> OneRecordEach(code[s].sites)
    ensures slots == others
  {
    var start := Floor(code, f.ra).value;
    RecordIsUnique(code[start].sites, (f.ra - start) % TWO_32, slots, others);
  }

  lemma WalksNoFurther(code: Registry, memory: nat -> nat, f: Frame, recorded: seq<seq<nat>>, n: nat)
    requires FramesRecord(code, memory, f, recorded) && !Compiled(code, FrameAt(memory, f, n).ra)
    ensures |recorded| <= n
  {
    hide Compiled;
  }

  /** Where the walk stops is determined by the chain, and what it visits too when no return offset has two records. */
  lemma WalkIsDetermined(code: Registry, memory: nat -> nat, f: Frame, a: seq<seq<nat>>, b: seq<seq<nat>>)
    requires Walked(code, memory, f, a) && Walked(code, memory, f, b)
    ensures |a| == |b|
    ensures (forall s :: s in code ==> OneRecordEach(code[s].sites)) ==> a == b
  {
    WalksNoFurther(code, memory, f, a, |b|);
    WalksNoFurther(code, memory, f, b, |a|);
    hide Compiled, Records;
    if forall s :: s in code ==> OneRecordEach(code[s].sites) {
      forall i | 0 <= i < |a| ensures a[i] == b[i] {
        assert FrameRecords(code, FrameAt(memory, f, i), a[i]) && FrameRecords(code, FrameAt(memory, f, i), b[i]);
        FrameRecordIsUnique(code, FrameAt(memory, f, i), a[i], b[i]);
      }
    }
  }

  // --- any series of calls ---------------------------------------------------------------------

  datatype Call =
    | Registered(start: nat, len: nat, sites: seq<Safepoint>, locations: seq<Location>, owner: nat)
    | Unregistered(start: nat)

  function RangeOf(c: Call): CodeRange
    requires c.Registered?
  {
    CodeRange(c.start + c.len, SortBy(c.sites, SiteKey), SortBy(c.locations, LocationKey), c.owner)
  }

  function After(calls: seq<Call>): Registry {
    if calls == [] then map[]
    else
      var before, c := After(calls[..|calls| - 1]), calls[|calls| - 1];
      if c.Registered? then before[c.start := RangeOf(c)] else before - {c.start}
  }

  /** Code is registered where no other live code lies. */
  ghost predicate Respectful(calls: seq<Call>) {
    calls == [] ||
    (var before, c := calls[..|calls| - 1], calls[|calls| - 1];
     && Respectful(before)
     && (c.Registered? ==>
           && c.len > 0
           && forall s, a: nat :: s in After(before) && s != c.start && Contains(After(before), s, a)
                                  ==> !(c.start <= a < c.start + c.len)))
  }

  /** The registration now in force at a start. */
  function InForce(calls: seq<Call>, start: nat): (r: Option<Call>)
    ensures r.Some? ==> r.value.Registered? && r.value.start == start
  {
    if calls == [] then None
    else
      var c := calls[|calls| - 1];
      if c.start == start then (if c.Registered? then Some(c) else None)
      else InForce(calls[..|calls| - 1], start)
  }

  lemma {:induction false} AfterHolds(calls: seq<Call>, start: nat)
    ensures var c := InForce(calls, start);
            && (start in After(calls) <==> c.Some?)
            && (c.Some? ==> After(calls)[start] == RangeOf(c.value))
  {
    hide RangeOf;
    if calls != [] { AfterHolds(calls[..|calls| - 1], start); }
  }

  lemma {:induction false} HistoryStaysDisjoint(calls: seq<Call>)
    requires Respectful(calls)
    ensures Disjoint(After(calls))
  {
    if calls != [] {
      hide Disjoint;
      var before, c := calls[..|calls| - 1], calls[|calls| - 1];
      HistoryStaysDisjoint(before);
      if c.Registered? {
        RegistryStaysDisjoint(After(before), c.start, RangeOf(c));
      } else {
        RemovalStaysDisjoint(After(before), c.start);
      }
    } else {
      assert After(calls) == map[];
    }
  }

  /** After any such series, locating is a linear scan of the locations registered with the code at hand. */
  lemma LocateOverHistory(calls: seq<Call>, address: nat, start: nat)
    requires Respectful(calls)
    requires var c := InForce(calls, start);
             c.Some? && start <= address < start + c.value.len
    ensures var c := InForce(calls, start).value;
            Locating(After(calls), address)
            == match Scan(c.locations, (address - start) % TWO_32)
               case None => None
               case Some(l) => Some(CodeLocation(c.owner, l.ip))
  {
    hide Disjoint, Locating, Scan;
    var c := InForce(calls, start).value;
    AfterHolds(calls, start);
    HistoryStaysDisjoint(calls);
    LocateIsLinearScan(After(calls), address, start, c.locations);
  }

  /** Away from all code in force, nothing is located. */
  lemma NothingElsewhere(calls: seq<Call>, address: nat)
    requires Respectful(calls)
    requires forall start: nat :: InForce(calls, start).Some?
               ==> !(start <= address < start + InForce(calls, start).value.len)
    ensures Locating(After(calls), address) == None
  {
    hide Disjoint, Locating;
    forall s | s in After(calls) ensures !Contains(After(calls), s, address) {
      AfterHolds(calls, s);
    }
    HistoryStaysDisjoint(calls);
    LocateOutside(After(calls), address);
  }

  /** The code in force that holds an address. */
  predicate Holds(calls: seq<Call>, start: nat, address: nat) {
    var c := InForce(calls, start);
    c.Some? && start <= address < start + c.value.len
  }

  ghost predicate Live(calls: seq<Call>, address: nat) {
    exists start: nat :: Holds(calls, start, address)
  }

  /** `slots` is what the safepoints registered with the code in force at the return address record for it. */
  ghost predicate RegisteredSlots(calls: seq<Call>, f: Frame, slots: seq<nat>) {
    exists start: nat ::
      Holds(calls, start, f.ra) && Records(InForce(calls, start).value.sites, (f.ra - start) % TWO_32, slots)
  }

  lemma CompiledIffLive(calls: seq<Call>, ra: nat)
    requires Respectful(calls)
    ensures Compiled(After(calls), ra) <==> Live(calls, ra)
  {
    hide Disjoint, Compiled;
    HistoryStaysDisjoint(calls);
    CompiledIffContained(After(calls), ra);
    forall start: nat ensures Holds(calls, start, ra) <==> start in After(calls) && Contains(After(calls), start, ra) {
      AfterHolds(calls, start);
    }
  }

  lemma SlotsOverHistory(calls: seq<Call>, f: Frame, slots: seq<nat>)
    requires Respectful(calls)
    ensures FrameRecords(After(calls), f, slots) <==> RegisteredSlots(calls, f, slots)
  {
    CompiledIffLive(calls, f.ra);
    HistoryStaysDisjoint(calls);
    hide Disjoint, Compiled, Records;
    if Live(calls, f.ra) {
      var start: nat :| Holds(calls, start, f.ra);
      HeldRecords(calls, f, start, slots);
      forall other: nat | Holds(calls, other, f.ra)
        ensures FrameRecords(After(calls), f, slots)
           <==> Records(InForce(calls, other).value.sites, (f.ra - other) % TWO_32, slots) {
        HeldRecords(calls, f, other, slots);
      }
    }
  }

  lemma HeldRecords(calls: seq<Call>, f: Frame, start: nat, slots: seq<nat>)
    requires Disjoint(After(calls)) && Holds(calls, start, f.ra)
    ensures FrameRecords(After(calls), f, slots)
       <==> Records(InForce(calls, start).value.sites, (f.ra - start) % TWO_32, slots)
  {
    AfterHolds(calls, start);
    FrameRecordsRegistered(After(calls), f, start, InForce(calls, start).value.sites, slots);
  }

  /**
    * After any series of calls a walk visits exactly the slots that the code in force at each
    * return address was registered with, none where it has no record, up to the first return
    * address at which no code is in force.
    */
  lemma RootsOverHistory(calls: seq<Call>, memory: nat -> nat, f: Frame, recorded: seq<seq<nat>>)
    requires Respectful(calls)
    ensures Walked(After(calls), memory, f, recorded)
       <==> && (forall i :: 0 <= i < |recorded| ==> RegisteredSlots(calls, FrameAt(memory, f, i), recorded[i]))
            && !Live(calls, FrameAt(memory, f, |recorded|).ra)
  {
    hide FrameRecords, RegisteredSlots, Compiled, Live, Respectful;
    CompiledIffLive(calls, FrameAt(memory, f, |recorded|).ra);
    forall i | 0 <= i < |recorded|
      ensures FrameRecords(After(calls), FrameAt(memory, f, i), recorded[i])
         <==> RegisteredSlots(calls, FrameAt(memory, f, i), recorded[i]) {
      SlotsOverHistory(calls, FrameAt(memory, f, i), recorded[i]);
    }
  }

  // --- a stack as it lies in memory ----------------------------------------------------------

  /**
    * The activations of a thread that left compiled code with these registers, innermost
    * first.  The word below an activation's stack is the address it returns to, and the word
    * below that, except for the innermost, its frame pointer; it begins where the
    * activation before it ends, two words above that one's frame pointer.
    */
  predicate Laid(memory: nat -> nat, stack: seq<Frame>, sp: nat, fp: nat) {
    && stack != [] && stack[0].sp == sp && stack[0].fp == fp && sp >= 8
    && (forall i :: 0 <= i < |stack| ==> stack[i].sp >= 8 && memory(stack[i].sp - 8) == stack[i].ra)
    && forall i :: 0 < i < |stack| ==>
         stack[i].sp == stack[i - 1].fp + 16 && memory(stack[i].sp - 16) == stack[i].fp
  }

  /** The addresses of the recorded slots, activation by activation. */
  function SlotAddresses(stack: seq<Frame>, recorded: seq<seq<nat>>): seq<nat>
    requires |recorded| <= |stack|
  {
    if recorded == [] then []
    else Above(stack[0].sp, recorded[0]) + SlotAddresses(stack[1..], recorded[1..])
  }

  function Above(sp: nat, slots: seq<nat>): seq<nat> {
    if slots == [] then [] else [sp + slots[0]] + Above(sp, slots[1..])
  }

  lemma {:induction false} PlacedIsAbove(sp: nat, slots: seq<nat>)
    ensures Placed(sp, slots) == Above(sp, slots)
  {
    if slots != [] {
      PlacedIsAbove(sp, slots[1..]);
      assert Placed(sp, slots) == [sp + slots[0]] + Placed(sp, slots[1..]);
    }
  }

  /** The walk steps from each activation to the one below it. */
  lemma {:induction false} FramesAreLaid(memory: nat -> nat, stack: seq<Frame>, sp: nat, fp: nat, i: nat)
    requires Laid(memory, stack, sp, fp) && i < |stack|
    ensures FrameAt(memory, Frame(sp, fp, memory(sp - 8)), i) == stack[i]
  {
    if i > 0 {
      FramesAreLaid(memory, stack, sp, fp, i - 1);
      assert stack[i].sp - 8 == stack[i - 1].fp + 8 && stack[i].sp - 16 == stack[i - 1].fp;
    }
  }

  lemma {:induction false} SlotAddressesOfMore(stack: seq<Frame>, recorded: seq<seq<nat>>, slots: seq<nat>)
    requires |recorded| < |stack|
    ensures SlotAddresses(stack, recorded + [slots])
         == SlotAddresses(stack, recorded) + Placed(stack[|recorded|].sp, slots)
  {
    PlacedIsAbove(stack[|recorded|].sp, slots);
    if recorded == [] {
      assert (recorded + [slots])[1..] == [];
      assert SlotAddresses(stack[1..], []) == [];
    } else {
      assert (recorded + [slots])[1..] == recorded[1..] + [slots];
      SlotAddressesOfMore(stack[1..], recorded[1..], slots);
    }
  }

  lemma {:induction false} RootsAreLaid(memory: nat -> nat, stack: seq<Frame>, sp: nat, fp: nat,
                                        recorded: seq<seq<nat>>)
    requires Laid(memory, stack, sp, fp) && |recorded| <= |stack|
    ensures RootsOf(memory, Frame(sp, fp, memory(sp - 8)), recorded) == SlotAddresses(stack, recorded)
  {
    if recorded != [] {
      var n := |recorded| - 1;
      RootsAreLaid(memory, stack, sp, fp, recorded[..n]);
      FramesAreLaid(memory, stack, sp, fp, n);
      SlotAddressesOfMore(stack, recorded[..n], recorded[n]);
      assert recorded == recorded[..n] + [recorded[n]];
      hide Placed, Laid, FrameAt, SlotAddresses;
    }
  }

  /**
    * Over a stack so laid whose activations but the last run code in force, a walk meets
    * exactly these activations and visits, in each, the slots its code was registered with.
    */
  lemma WalkMeetsStack(calls: seq<Call>, memory: nat -> nat, stack: seq<Frame>, sp: nat, fp: nat,
                       recorded: seq<seq<nat>>)
    requires Respectful(calls) && Laid(memory, stack, sp, fp)
    requires forall i :: 0 <= i < |stack| ==> (Live(calls, stack[i].ra) <==> i < |stack| - 1)
    ensures var start := Frame(sp, fp, memory(sp - 8));
            && LeavesAfter(After(calls), memory, start, |stack| - 1)
            && (Walked(After(calls), memory, start, recorded) <==>
                  && |recorded| == |stack| - 1
                  && forall i :: 0 <= i < |recorded| ==> RegisteredSlots(calls, stack[i], recorded[i]))
            && (Walked(After(calls), memory, start, recorded) ==>
                  |recorded| <= |stack| && RootsOf(memory, start, recorded) == SlotAddresses(stack, recorded))
  {
    var start, n := Frame(sp, fp, memory(sp - 8)), |stack| - 1;
    forall i | 0 <= i < |stack|
      ensures FrameAt(memory, start, i) == stack[i]
      ensures Compiled(After(calls), FrameAt(memory, start, i).ra) <==> i < n
    {
      FramesAreLaid(memory, stack, sp, fp, i);
      CompiledIffLive(calls, stack[i].ra);
    }
    RootsOverHistory(calls, memory, start, recorded);
    if Walked(After(calls), memory, start, recorded) {
      WalksNoFurther(After(calls), memory, start, recorded, n);
      RootsAreLaid(memory, stack, sp, fp, recorded);
    }
    hide Compiled, Live, Respectful, Laid, RegisteredSlots, FrameRecords, FrameAt, SlotAddresses, RootsOf;
  }
}
