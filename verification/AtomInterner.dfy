/**
  * The atom interner (atom.rs): texts under their hash in two tiers, a frozen base shared
  * by reference and a private delta, which together behave as one flat table.
  */
module AtomInterner {
  import opened Wrappers

  type Atom = nat
  type Entries = map<Atom, string>
  type Collision = (string, string)

  const FREEZE_THRESHOLD := 2048

  // --- the tiers as values ---------------------------------------------------

  /** The base's entries, the delta, and the collisions recorded so far. */
  datatype Tiers = Tiers(base: Entries, delta: Entries, log: seq<Collision>) {
    function Flat(): Entries {
      base + delta
    }
  }

  /** The first text under an atom stays; another is only recorded.  A full delta is frozen. */
  function Put(t: Tiers, atom: Atom, text: string): Tiers {
    if atom in t.Flat() then
      if t.Flat()[atom] == text then t else t.(log := t.log + [(t.Flat()[atom], text)])
    else
      var delta := t.delta[atom := text];
      if |delta| < FREEZE_THRESHOLD then t.(delta := delta) else t.(base := t.base + delta, delta := map[])
  }

  /** Puts the listed entries of `theirs` in turn. */
  function PutAll(t: Tiers, theirs: Entries, order: seq<Atom>): Tiers {
    if order == [] then t
    else
      var init, a := order[..|order| - 1], order[|order| - 1];
      if a in theirs then Put(PutAll(t, theirs, init), a, theirs[a]) else PutAll(t, theirs, init)
  }

  /** The two ways past the merge: nothing to add to a shared base, and nothing to add to. */
  predicate AddsNothing(shared: bool, theirs: Tiers) {
    shared && theirs.delta == map[]
  }

  /** What absorbing makes of our tiers when the entries that differ are met in the given order. */
  function Absorbed(ours: Tiers, theirs: Tiers, shared: bool, order: seq<Atom>): Tiers {
    if AddsNothing(shared, theirs) then ours
    else if ours.Flat() == map[] then Tiers(theirs.base, theirs.delta, ours.log + theirs.log)
    else
      var t := PutAll(ours, theirs.Flat(), order);
      t.(log := t.log + theirs.log)
  }

  predicate Differs(ours: Entries, theirs: Entries, a: Atom) {
    a in theirs && !(a in ours && ours[a] == theirs[a])
  }

  /** `order` lists the atoms under which `theirs` differs from `ours`, each once. */
  ghost predicate Lists(order: seq<Atom>, ours: Entries, theirs: Entries) {
    && (forall a :: a in order <==> Differs(ours, theirs, a))
    && (forall i, j :: 0 <= i < j < |order| ==> order[i] != order[j])
  }

  /** `order` is one a run of the merge may take; without a merge it does not matter. */
  ghost predicate MayOrder(ours: Tiers, theirs: Tiers, shared: bool, order: seq<Atom>) {
    AddsNothing(shared, theirs) || ours.Flat() == map[] || Lists(order, ours.Flat(), theirs.Flat())
  }

  /** The texts of the two tables that clash, and the atom under which they do. */
  predicate Clashes(ours: Entries, theirs: Entries, c: Collision, atom: Atom) {
    atom in ours && atom in theirs && ours[atom] != theirs[atom] && c == (ours[atom], theirs[atom])
  }

  ghost predicate Clash(ours: Entries, theirs: Entries, c: Collision) {
    exists atom :: Clashes(ours, theirs, c, atom)
  }

  ghost predicate ClashWithin(ours: Entries, theirs: Entries, atoms: seq<Atom>, c: Collision) {
    exists a :: a in atoms && Clashes(ours, theirs, c, a)
  }

  function Taken(theirs: Entries, atoms: seq<Atom>): Entries {
    map a | a in theirs && a in atoms :: theirs[a]
  }

  lemma PutMeans(t: Tiers, atom: Atom, text: string)
    ensures var flat, u := t.Flat(), Put(t, atom, text);
            && u.Flat() == (if atom in flat then flat else flat[atom := text])
            && u.log == (if atom in flat && flat[atom] != text then t.log + [(flat[atom], text)] else t.log)
            && t.base.Keys <= u.base.Keys
            && (u.base != t.base ==> atom in u.base && atom !in t.base)
  {
    var delta := t.delta[atom := text];
    Grow(t.base, t.delta, atom, text);
    NothingOver(t.base + delta);
    var u := Put(t, atom, text);
    assert t.Flat() == t.base + t.delta && u.Flat() == u.base + u.delta;
    hide Tiers.Flat;
    if atom in t.Flat() {
    } else if |delta| < FREEZE_THRESHOLD {
      assert u == Tiers(t.base, delta, t.log);
    } else {
      assert u == Tiers(t.base + delta, map[], t.log);
    }
  }

  lemma Grow(base: Entries, delta: Entries, atom: Atom, text: string)
    ensures (base + delta)[atom := text] == base + delta[atom := text]
  {
  }

  lemma FirstStays(flat: Entries, atom: Atom, text: string)
    ensures map[atom := text] + flat == if atom in flat then flat else flat[atom := text]
  {
  }

  lemma EmptyFlat(log: seq<Collision>)
    ensures Tiers(map[], map[], log).Flat() == map[]
  {
  }

  lemma NothingOver(base: Entries)
    ensures base + map[] == base
  {
  }

  lemma PutApart(t: Tiers, atom: Atom, text: string)
    requires t.base.Keys !! t.delta.Keys && |t.delta| < FREEZE_THRESHOLD
    ensures var u := Put(t, atom, text); u.base.Keys !! u.delta.Keys && |u.delta| < FREEZE_THRESHOLD
  {
  }

  /** Putting entries in turn adds those of new atoms and records those that clash, in whatever order. */
  lemma {:induction false} PutAllMeans(t: Tiers, theirs: Entries, order: seq<Atom>)
    requires forall a :: a in order ==> a in theirs
    ensures var u := PutAll(t, theirs, order);
            && u.Flat() == Taken(theirs, order) + t.Flat()
            && (forall c :: c in u.log <==> c in t.log || ClashWithin(t.Flat(), theirs, order, c))
    decreases |order|
  {
    if order == [] {
    } else {
      var init, a := order[..|order| - 1], order[|order| - 1];
      assert order == init + [a];
      PutAllMeans(t, theirs, init);
      PutOneMore(t, theirs, init, a, PutAll(t, theirs, init));
    }
  }

  lemma PutOneMore(t: Tiers, theirs: Entries, order: seq<Atom>, a: Atom, u: Tiers)
    requires a in theirs && u.Flat() == Taken(theirs, order) + t.Flat()
    requires forall c :: c in u.log <==> c in t.log || ClashWithin(t.Flat(), theirs, order, c)
    ensures var v := Put(u, a, theirs[a]);
            && v.Flat() == Taken(theirs, order + [a]) + t.Flat()
            && (forall c :: c in v.log <==> c in t.log || ClashWithin(t.Flat(), theirs, order + [a], c))
  {
    PutMeans(u, a, theirs[a]);
    TakeOne(theirs, t.Flat(), order, a);
    hide *;
    ClashOne(t.Flat(), theirs, order, a, t.log, u.log, Put(u, a, theirs[a]).log);
  }

  lemma TakeOne(theirs: Entries, ours: Entries, atoms: seq<Atom>, a: Atom)
    requires a in theirs
    ensures var before := Taken(theirs, atoms) + ours;
            && Taken(theirs, atoms + [a]) + ours == (if a in before then before else before[a := theirs[a]])
            && (a in ours ==> a in before && before[a] == ours[a])
            && (a in before && a !in ours ==> before[a] == theirs[a])
  {
  }

  lemma ClashOne(ours: Entries, theirs: Entries, atoms: seq<Atom>, a: Atom,
                 start: seq<Collision>, before: seq<Collision>, after: seq<Collision>)
    requires a in theirs
    requires forall c :: c in before <==> c in start || ClashWithin(ours, theirs, atoms, c)
    requires after == if a in ours && ours[a] != theirs[a] then before + [(ours[a], theirs[a])] else before
    ensures forall c :: c in after <==> c in start || ClashWithin(ours, theirs, atoms + [a], c)
  {
    forall c ensures c in after <==> c in start || ClashWithin(ours, theirs, atoms + [a], c) {
      if ClashWithin(ours, theirs, atoms, c) {
        var b :| b in atoms && Clashes(ours, theirs, c, b);
        assert b in atoms + [a];
      }
      if a in ours && ours[a] != theirs[a] {
        assert Clashes(ours, theirs, (ours[a], theirs[a]), a) && a in atoms + [a];
      }
    }
  }

  lemma {:induction false} PutAllKeeps(t: Tiers, theirs: Entries, order: seq<Atom>)
    ensures var u := PutAll(t, theirs, order);
            && t.log <= u.log
            && t.base.Keys <= u.base.Keys
            && (t.base.Keys !! t.delta.Keys && |t.delta| < FREEZE_THRESHOLD ==>
                  u.base.Keys !! u.delta.Keys && |u.delta| < FREEZE_THRESHOLD)
    decreases |order|
  {
    if order == [] {
    } else {
      var init, a := order[..|order| - 1], order[|order| - 1];
      PutAllKeeps(t, theirs, init);
      if a in theirs {
        var u := PutAll(t, theirs, init);
        PutMeans(u, a, theirs[a]);
        if u.base.Keys !! u.delta.Keys && |u.delta| < FREEZE_THRESHOLD { PutApart(u, a, theirs[a]); }
      }
    }
  }

  /** A merge in any order is the left-biased union, with every clash recorded. */
  lemma MergeMeans(t: Tiers, theirs: Entries, order: seq<Atom>)
    requires Lists(order, t.Flat(), theirs)
    ensures var u := PutAll(t, theirs, order);
            && u.Flat() == theirs + t.Flat()
            && (forall c :: c in u.log <==> c in t.log || Clash(t.Flat(), theirs, c))
  {
    PutAllMeans(t, theirs, order);
    hide PutAll;
    AllTaken(t.Flat(), theirs, order);
    forall c ensures ClashWithin(t.Flat(), theirs, order, c) <==> Clash(t.Flat(), theirs, c) {
      ClashAll(t.Flat(), theirs, order, c);
    }
  }

  /** Some of the atoms are listed and the others are pending. */
  ghost predicate PartLists(order: seq<Atom>, pending: set<Atom>, ours: Entries, theirs: Entries) {
    && (forall a :: Differs(ours, theirs, a) <==> a in pending || a in order)
    && (forall a :: a in pending ==> a !in order)
    && (forall i, j :: 0 <= i < j < |order| ==> order[i] != order[j])
  }

  /** With a shared base only the other's delta can hold entries that differ. */
  lemma StartLists(ours: Tiers, theirs: Tiers, source: Entries, pending: set<Atom>)
    requires ours.base.Keys !! ours.delta.Keys
    requires source == theirs.Flat() || (source == theirs.delta && ours.base == theirs.base)
    requires pending == set a | a in source && !(a in ours.Flat() && ours.Flat()[a] == source[a])
    ensures PartLists([], pending, ours.Flat(), theirs.Flat())
    ensures forall a :: a in pending ==> a in theirs.Flat() && source[a] == theirs.Flat()[a]
  {
  }

  lemma AllListed(order: seq<Atom>, ours: Entries, theirs: Entries)
    requires PartLists(order, {}, ours, theirs)
    ensures Lists(order, ours, theirs)
  {
  }

  lemma ListOne(order: seq<Atom>, pending: set<Atom>, ours: Entries, theirs: Entries, a: Atom)
    requires PartLists(order, pending, ours, theirs) && a in pending
    ensures PartLists(order + [a], pending - {a}, ours, theirs)
  {
  }

  lemma PutOne(t: Tiers, theirs: Entries, order: seq<Atom>, a: Atom)
    requires a in theirs
    ensures PutAll(t, theirs, order + [a]) == Put(PutAll(t, theirs, order), a, theirs[a])
  {
    assert (order + [a])[..|order|] == order;
  }

  lemma AllTaken(ours: Entries, theirs: Entries, atoms: seq<Atom>)
    requires forall a :: a in atoms <==> Differs(ours, theirs, a)
    ensures Taken(theirs, atoms) + ours == theirs + ours
  {
  }

  lemma ClashAll(ours: Entries, theirs: Entries, atoms: seq<Atom>, c: Collision)
    requires forall a :: a in atoms <==> Differs(ours, theirs, a)
    ensures ClashWithin(ours, theirs, atoms, c) <==> Clash(ours, theirs, c)
  {
    if Clash(ours, theirs, c) {
      var a :| Clashes(ours, theirs, c, a);
      assert a in atoms;
    }
  }

  lemma {:induction false} UnionSize(a: Entries, b: Entries)
    requires a.Keys !! b.Keys
    ensures |a + b| == |a| + |b|
  {
    assert (a + b).Keys == a.Keys + b.Keys;
  }

  lemma EmptyTable(t: Entries)
    requires |t| == 0
    ensures t == map[]
  {
  }

  lemma SharedBaseAddsNothing(ours: Tiers, theirs: Tiers)
    requires ours.base.Keys !! ours.delta.Keys && ours.base == theirs.base && theirs.delta == map[]
    ensures theirs.Flat() + ours.Flat() == ours.Flat()
  {
  }

  lemma NothingClashesWithEmpty(theirs: Entries)
    ensures theirs + map[] == theirs
    ensures forall c :: !Clash(map[], theirs, c)
  {
  }

  // --- the interner -------------------------------------------------------------

  /** A frozen tier, shared by reference. */
  class Base {
    const entries: Entries

    constructor (entries: Entries)
      ensures this.entries == entries
    {
      this.entries := entries;
    }
  }

  class Interner {
    const of: string -> Atom
    var base: Base
    var delta: Entries
    var collisions: seq<Collision>

    ghost predicate Valid()
      reads this
    {
      base.entries.Keys !! delta.Keys && |delta| < FREEZE_THRESHOLD
    }

    ghost function Now(): Tiers
      reads this
    {
      Tiers(base.entries, delta, collisions)
    }

    ghost function Flat(): Entries
      reads this
    {
      Now().Flat()
    }

    constructor (of: string -> Atom)
      ensures Valid() && this.of == of && Now() == Tiers(map[], map[], []) && fresh(base)
    {
      this.of := of;
      base := new Base(map[]);
      delta := map[];
      collisions := [];
    }

    /** The copy holds the same, and shares the base. */
    constructor Clone(other: Interner)
      requires other.Valid()
      ensures Valid() && of == other.of && Now() == other.Now() && base == other.base
    {
      of := other.of;
      base := other.base;
      delta := other.delta;
      collisions := other.collisions;
    }

    method Lookup(atom: Atom) returns (r: Option<string>)
      requires Valid()
      ensures r == if atom in Flat() then Some(Flat()[atom]) else None
    {
      r := if atom in base.entries then Some(base.entries[atom])
           else if atom in delta then Some(delta[atom]) else None;
    }

    /** Moves the delta into a new base; what the interner holds is the same. */
    method Freeze()
      requires base.entries.Keys !! delta.Keys
      modifies this
      ensures Valid() && Now() == Tiers(old(Flat()), map[], old(collisions))
      ensures if old(delta) == map[] then base == old(base) else fresh(base)
    {
      if delta == map[] {
        assert Flat() == base.entries;
        return;
      }
      base := new Base(base.entries + delta);
      delta := map[];
    }

    method Insert(atom: Atom, text: string)
      requires Valid()
      modifies this
      ensures Valid() && Now() == Put(old(Now()), atom, text)
      ensures Flat() == if atom in old(Flat()) then old(Flat()) else old(Flat())[atom := text]
      ensures if base.entries == old(base.entries) then base == old(base) else fresh(base)
    {
      PutMeans(Now(), atom, text);
      PutApart(Now(), atom, text);
      var existing := Lookup(atom);
      match existing
      case Some(found) =>
        if found != text { collisions := collisions + [(found, text)]; }
      case None =>
        delta := delta[atom := text];
        if |delta| >= FREEZE_THRESHOLD { Freeze(); }
    }

    /** The text resolves unless another one held its atom, and then the pair is recorded. */
    method Intern(s: string) returns (atom: Atom)
      requires Valid()
      modifies this
      ensures Valid() && atom == of(s) && Now() == Put(old(Now()), atom, s)
      ensures atom in Flat() && (Flat()[atom] == s || (Flat()[atom], s) in collisions)
      ensures if base.entries == old(base.entries) then base == old(base) else fresh(base)
    {
      atom := of(s);
      Insert(atom, s);
    }

    method Get(s: string) returns (r: Option<Atom>)
      requires Valid()
      ensures r == if of(s) in Flat() && Flat()[of(s)] == s then Some(of(s)) else None
    {
      var found := Lookup(of(s));
      r := if found == Some(s) then Some(of(s)) else None;
    }

    /** The tiers never overlap, so their sizes add up. */
    method Len() returns (n: nat)
      requires Valid()
      ensures n == |Flat()|
    {
      UnionSize(base.entries, delta);
      n := |base.entries| + |delta|;
    }

    /**
      * Takes in another interner's texts where it has none of its own.  Its recorded
      * collisions come too, unless it adds nothing to a base both already share.
      */
    method Absorb(other: Interner) returns (ghost order: seq<Atom>)
      requires Valid() && other.Valid() && other != this
      modifies this
      ensures Valid() && MayOrder(old(Now()), other.Now(), old(base) == other.base, order)
      ensures Now() == Absorbed(old(Now()), other.Now(), old(base) == other.base, order)
      ensures if AddsNothing(old(base) == other.base, other.Now()) then base == old(base)
              else if old(Flat()) == map[] then base == other.base
              else if base.entries == old(base.entries) then base == old(base) else fresh(base)
      ensures Flat() == other.Flat() + old(Flat())
      ensures !AddsNothing(old(base) == other.base, other.Now()) ==>
                forall c :: c in collisions
                  <==> c in old(collisions) || c in other.collisions || Clash(old(Flat()), other.Flat(), c)
    {
      order := [];
      if base == other.base && other.delta == map[] {
        SharedBaseAddsNothing(Now(), other.Now());
        return;
      }
      var size := Len();
      if size == 0 {
        EmptyTable(Flat());
        NothingClashesWithEmpty(other.Flat());
        base, delta := other.base, other.delta;
      } else {
        order := AbsorbEntries(other);
        MergeMeans(old(Now()), other.Flat(), order);
      }
      collisions := collisions + other.collisions;
    }

    /** The other interner's entries that differ from this one's: those of its base only if it is not shared. */
    method Pending(other: Interner) returns (source: Entries, pending: set<Atom>)
      requires Valid() && other.Valid()
      ensures PartLists([], pending, Now().Flat(), other.Now().Flat())
      ensures pending <= source.Keys
      ensures forall a :: a in pending ==> a in other.Now().Flat() && source[a] == other.Now().Flat()[a]
    {
      source := if base == other.base then other.delta else other.base.entries + other.delta;
      var mine := base.entries + delta;
      pending := set a | a in source && !(a in mine && mine[a] == source[a]);
      StartLists(Now(), other.Now(), source, pending);
    }

    /** Inserts, in any order, the entries of the other interner that differ from this one's. */
    method AbsorbEntries(other: Interner) returns (ghost order: seq<Atom>)
      requires Valid() && other.Valid() && other != this
      modifies this
      ensures Valid() && Lists(order, old(Now()).Flat(), other.Now().Flat())
      ensures Now() == PutAll(old(Now()), other.Now().Flat(), order)
      ensures if base.entries == old(base.entries) then base == old(base) else fresh(base)
    {
      ghost var start, ours, theirs := Now(), Now().Flat(), other.Now().Flat();
      order := [];
      assert PutAll(start, theirs, order) == start;
      var source, pending := Pending(other);
      hide PutAll, Put, PartLists, Lists, Tiers.Flat, Interner.Flat;
      while pending != {}
        invariant Valid() && Now() == PutAll(start, theirs, order) && PartLists(order, pending, ours, theirs)
        invariant pending <= source.Keys && forall a :: a in pending ==> a in theirs && source[a] == theirs[a]
        invariant old(base.entries).Keys <= base.entries.Keys
        invariant if base.entries == old(base.entries) then base == old(base) else fresh(base)
        decreases pending
      {
        var a :| a in pending;
        ListOne(order, pending, ours, theirs, a);
        PutOne(start, theirs, order, a);
        PutMeans(Now(), a, source[a]);
        Insert(a, source[a]);
        order := order + [a];
        pending := pending - {a};
      }
      AllListed(order, ours, theirs);
    }
  }

  // --- over any history -------------------------------------------------------------

  /**
    * How an interner came about: created, copied, or from an earlier one by interning a
    * text or absorbing another interner.  The number tells interners made alike apart.
    */
  datatype History =
    | New(id: nat)
    | Cloned(before: History, id: nat)
    | Interning(before: History, text: string)
    | Absorbing(before: History, other: History, order: seq<Atom>)

  /** The tiers, and the history at whose end the base was made: bases are one object exactly when these agree. */
  datatype State = State(tiers: Tiers, origin: History)

  function After(of: string -> Atom, h: History): State {
    match h
    case New(_) => State(Tiers(map[], map[], []), h)
    case Cloned(b, _) => After(of, b)
    case Interning(b, s) => Moved(After(of, b), Put(After(of, b).tiers, of(s), s), h)
    case Absorbing(b, other, order) =>
      var p, q := After(of, b), After(of, other);
      var t := Absorbed(p.tiers, q.tiers, p.origin == q.origin, order);
      if TakesOver(p, q) then State(t, q.origin) else Moved(p, t, h)
  }

  /** A step makes a new base only when it freezes, which changes the base's entries. */
  function Moved(p: State, t: Tiers, h: History): State {
    State(t, if t.base == p.tiers.base then p.origin else h)
  }

  /** An empty interner takes the other's tiers as they are. */
  predicate TakesOver(p: State, q: State) {
    !AddsNothing(p.origin == q.origin, q.tiers) && p.tiers.Flat() == map[]
  }

  /** Every merge met the entries to take in some order. */
  ghost predicate Possible(of: string -> Atom, h: History) {
    match h
    case New(_) => true
    case Cloned(b, _) => Possible(of, b)
    case Interning(b, _) => Possible(of, b)
    case Absorbing(b, other, order) =>
      var p, q := After(of, b), After(of, other);
      Possible(of, b) && Possible(of, other) && MayOrder(p.tiers, q.tiers, p.origin == q.origin, order)
  }

  /** One flat table: the first text under an atom stays. */
  function FlatAfter(of: string -> Atom, h: History): Entries {
    match h
    case New(_) => map[]
    case Cloned(b, _) => FlatAfter(of, b)
    case Interning(b, s) => map[of(s) := s] + FlatAfter(of, b)
    case Absorbing(b, other, _) => FlatAfter(of, other) + FlatAfter(of, b)
  }

  function Texts(h: History): set<string> {
    match h
    case New(_) => {}
    case Cloned(b, _) => Texts(b)
    case Interning(b, s) => Texts(b) + {s}
    case Absorbing(b, other, _) => Texts(b) + Texts(other)
  }

  /** The texts given to this interner itself, or to the one it was copied from. */
  function OwnTexts(h: History): set<string> {
    match h
    case New(_) => {}
    case Cloned(b, _) => OwnTexts(b)
    case Interning(b, s) => OwnTexts(b) + {s}
    case Absorbing(b, _, _) => OwnTexts(b)
  }

  ghost predicate Injective(of: string -> Atom, texts: set<string>) {
    forall s, t :: s in texts && t in texts && of(s) == of(t) ==> s == t
  }

  /** Every one of the texts is what its atom resolves to. */
  ghost predicate Resolve(of: string -> Atom, flat: Entries, texts: set<string>) {
    forall s :: s in texts ==> of(s) in flat && flat[of(s)] == s
  }

  /** No absorbing found nothing to add to a shared base while the other had recorded collisions. */
  predicate Keeps(of: string -> Atom, h: History) {
    match h
    case New(_) => true
    case Cloned(b, _) => Keeps(of, b)
    case Interning(b, _) => Keeps(of, b)
    case Absorbing(b, other, _) =>
      var p, q := After(of, b), After(of, other);
      Keeps(of, b) && Keeps(of, other) && (AddsNothing(p.origin == q.origin, q.tiers) ==> q.tiers.log == [])
  }

  /** `k` continues `h` by further steps. */
  predicate Continues(h: History, k: History) {
    h == k || (!k.New? && Continues(h, k.before))
  }

  /** The tiers never overlap, and the delta is never full. */
  lemma {:induction false} TiersApart(of: string -> Atom, h: History)
    ensures var t := After(of, h).tiers; t.base.Keys !! t.delta.Keys && |t.delta| < FREEZE_THRESHOLD
  {
    match h
    case New(_) =>
    case Cloned(b, _) => TiersApart(of, b);
    case Interning(b, s) =>
      TiersApart(of, b);
      PutApart(After(of, b).tiers, of(s), s);
    case Absorbing(b, other, order) =>
      TiersApart(of, b);
      TiersApart(of, other);
      PutAllKeeps(After(of, b).tiers, After(of, other).tiers.Flat(), order);
  }

  /** What a base holds is fixed where it is made. */
  lemma {:induction false} OriginHoldsBase(of: string -> Atom, h: History)
    ensures var o := After(of, h).origin; After(of, o).origin == o && After(of, o).tiers.base == After(of, h).tiers.base
  {
    hide Put, Absorbed;
    match h
    case New(_) =>
    case Cloned(b, _) => OriginHoldsBase(of, b);
    case Interning(b, _) => OriginHoldsBase(of, b);
    case Absorbing(b, other, order) =>
      OriginHoldsBase(of, b);
      OriginHoldsBase(of, other);
      if TakesOver(After(of, b), After(of, other)) { TakenOverBase(After(of, b), After(of, other), order); }
  }

  lemma TakenOverBase(p: State, q: State, order: seq<Atom>)
    requires TakesOver(p, q)
    ensures Absorbed(p.tiers, q.tiers, p.origin == q.origin, order).base == q.tiers.base
  {
  }

  /** Two tiers, shared bases and both shortcuts of absorbing make no difference to what is held. */
  lemma {:induction false} TiersAreFlat(of: string -> Atom, h: History)
    requires Possible(of, h)
    ensures After(of, h).tiers.Flat() == FlatAfter(of, h)
  {
    hide Put, Absorbed, MayOrder, Tiers.Flat;
    match h
    case New(_) => EmptyFlat([]);
    case Cloned(b, _) => TiersAreFlat(of, b);
    case Interning(b, s) =>
      TiersAreFlat(of, b);
      PutMeans(After(of, b).tiers, of(s), s);
      FirstStays(FlatAfter(of, b), of(s), s);
    case Absorbing(b, other, order) =>
      TiersAreFlat(of, b);
      TiersAreFlat(of, other);
      AbsorbedIsFlat(of, b, other, order);
  }

  lemma AbsorbedIsFlat(of: string -> Atom, b: History, other: History, order: seq<Atom>)
    requires MayOrder(After(of, b).tiers, After(of, other).tiers, After(of, b).origin == After(of, other).origin, order)
    ensures var p, q := After(of, b), After(of, other);
            Absorbed(p.tiers, q.tiers, p.origin == q.origin, order).Flat() == q.tiers.Flat() + p.tiers.Flat()
  {
    hide After;
    var p, q := After(of, b), After(of, other);
    if AddsNothing(p.origin == q.origin, q.tiers) {
      TiersApart(of, b);
      OriginHoldsBase(of, b);
      OriginHoldsBase(of, other);
      SharedBaseAddsNothing(p.tiers, q.tiers);
    } else if p.tiers.Flat() != map[] {
      MergeMeans(p.tiers, q.tiers.Flat(), order);
    }
  }

  // --- what is recorded ----------------------------------------------------------------

  /** A resolvable atom keeps its text, and recorded collisions stay. */
  lemma {:induction false} ResolvedForGood(of: string -> Atom, h: History, k: History)
    requires Continues(h, k) && Possible(of, k)
    ensures var flat, more := After(of, h).tiers.Flat(), After(of, k).tiers.Flat();
            && (forall a :: a in flat ==> a in more && more[a] == flat[a])
            && After(of, h).tiers.log <= After(of, k).tiers.log
    decreases k
  {
    hide Put, Absorbed, MayOrder, Tiers.Flat;
    if h != k {
      ResolvedForGood(of, h, k.before);
      StepKeepsLog(of, k);
      TiersAreFlat(of, k);
      TiersAreFlat(of, k.before);
      StepKeepsFlat(of, k);
    }
  }

  lemma StepKeepsFlat(of: string -> Atom, k: History)
    requires !k.New?
    ensures forall a :: a in FlatAfter(of, k.before) ==>
              a in FlatAfter(of, k) && FlatAfter(of, k)[a] == FlatAfter(of, k.before)[a]
  {
  }

  lemma StepKeepsLog(of: string -> Atom, k: History)
    requires !k.New?
    ensures After(of, k.before).tiers.log <= After(of, k).tiers.log
  {
    match k
    case Cloned(_, _) =>
    case Interning(b, s) => PutMeans(After(of, b).tiers, of(s), s);
    case Absorbing(b, other, order) => PutAllKeeps(After(of, b).tiers, After(of, other).tiers.Flat(), order);
  }

  /** The flat table holds, for each atom, one of the texts that have it. */
  lemma {:induction false} FlatHoldsTexts(of: string -> Atom, h: History)
    ensures var flat := FlatAfter(of, h);
            && (forall s :: s in Texts(h) ==> of(s) in flat)
            && (forall a :: a in flat ==> flat[a] in Texts(h) && of(flat[a]) == a)
  {
    match h
    case New(_) =>
    case Cloned(b, _) => FlatHoldsTexts(of, b);
    case Interning(b, s) => FlatHoldsTexts(of, b);
    case Absorbing(b, other, _) =>
      FlatHoldsTexts(of, b);
      FlatHoldsTexts(of, other);
  }

  /** Over any history every text resolves to itself exactly when no two of them share an atom. */
  lemma ResolvesIffInjective(of: string -> Atom, h: History)
    requires Possible(of, h)
    ensures Resolve(of, After(of, h).tiers.Flat(), Texts(h)) <==> Injective(of, Texts(h))
  {
    hide After;
    TiersAreFlat(of, h);
    FlatHoldsTexts(of, h);
  }

  predicate Genuine(of: string -> Atom, texts: set<string>, c: Collision) {
    c.0 in texts && c.1 in texts && of(c.0) == of(c.1) && c.0 != c.1
  }

  /** What is recorded are pairs of different texts with one atom. */
  lemma {:induction false} LoggedAreGenuine(of: string -> Atom, h: History)
    requires Possible(of, h)
    ensures forall c :: c in After(of, h).tiers.log ==> Genuine(of, Texts(h), c)
  {
    hide Put, Absorbed, MayOrder, Tiers.Flat;
    match h
    case New(_) =>
    case Cloned(b, _) => LoggedAreGenuine(of, b);
    case Interning(b, s) =>
      LoggedAreGenuine(of, b);
      TiersAreFlat(of, b);
      FlatHoldsTexts(of, b);
      PutMeans(After(of, b).tiers, of(s), s);
    case Absorbing(b, other, order) =>
      LoggedAreGenuine(of, b);
      LoggedAreGenuine(of, other);
      forall c | c in After(of, h).tiers.log ensures Genuine(of, Texts(h), c) {
        AbsorbedLog(of, b, other, order, c);
        if Clash(FlatAfter(of, b), FlatAfter(of, other), c) { ClashIsGenuine(of, b, other, c); }
      }
  }

  lemma ClashIsGenuine(of: string -> Atom, b: History, other: History, c: Collision)
    requires Clash(FlatAfter(of, b), FlatAfter(of, other), c)
    ensures Genuine(of, Texts(b) + Texts(other), c)
  {
    FlatHoldsTexts(of, b);
    FlatHoldsTexts(of, other);
  }

  /** After a merge the collisions are both interners' and the clashes between them. */
  lemma AbsorbedLog(of: string -> Atom, b: History, other: History, order: seq<Atom>, c: Collision)
    requires Possible(of, Absorbing(b, other, order))
    ensures var p, q := After(of, b), After(of, other);
            c in After(of, Absorbing(b, other, order)).tiers.log
            <==> || c in p.tiers.log
                 || (!AddsNothing(p.origin == q.origin, q.tiers) &&
                     (c in q.tiers.log || Clash(FlatAfter(of, b), FlatAfter(of, other), c)))
  {
    var p, q := After(of, b), After(of, other);
    TiersAreFlat(of, b);
    TiersAreFlat(of, other);
    assert After(of, Absorbing(b, other, order)).tiers == Absorbed(p.tiers, q.tiers, p.origin == q.origin, order);
    hide After, Possible, FlatAfter;
    if AddsNothing(p.origin == q.origin, q.tiers) {
    } else if p.tiers.Flat() == map[] {
      NothingClashesWithEmpty(q.tiers.Flat());
    } else {
      MergeMeans(p.tiers, q.tiers.Flat(), order);
    }
  }

  /** Without a collision recorded or lost no two texts share an atom. */
  lemma {:induction false} UnloggedIsInjective(of: string -> Atom, h: History)
    requires Possible(of, h) && Keeps(of, h) && After(of, h).tiers.log == []
    ensures Injective(of, Texts(h))
  {
    hide Put, Absorbed, MayOrder, Tiers.Flat;
    if !h.New? { StepKeepsLog(of, h); }
    match h
    case New(_) =>
    case Cloned(b, _) => UnloggedIsInjective(of, b);
    case Interning(b, s) =>
      UnloggedIsInjective(of, b);
      TiersAreFlat(of, b);
      FlatHoldsTexts(of, b);
      PutMeans(After(of, b).tiers, of(s), s);
    case Absorbing(b, other, order) =>
      UnloggedIsInjective(of, b);
      OtherUnlogged(of, b, other, order);
      UnloggedIsInjective(of, other);
      FlatsAgree(of, b, other, order);
      UnionInjective(of, b, other);
  }

  lemma OtherUnlogged(of: string -> Atom, b: History, other: History, order: seq<Atom>)
    requires var h := Absorbing(b, other, order); Possible(of, h) && Keeps(of, h) && After(of, h).tiers.log == []
    ensures After(of, other).tiers.log == []
  {
    var p, q := After(of, b), After(of, other);
    if q.tiers.log != [] { AbsorbedLog(of, b, other, order, q.tiers.log[0]); }
  }

  /** Absorbing without a collision finds no two texts under one atom. */
  lemma FlatsAgree(of: string -> Atom, b: History, other: History, order: seq<Atom>)
    requires var h := Absorbing(b, other, order); Possible(of, h) && After(of, h).tiers.log == []
    ensures var ours, theirs := FlatAfter(of, b), FlatAfter(of, other);
            forall a :: a in ours && a in theirs ==> ours[a] == theirs[a]
  {
    var ours, theirs := FlatAfter(of, b), FlatAfter(of, other);
    forall a | a in ours && a in theirs ensures ours[a] == theirs[a] {
      var p, q := After(of, b), After(of, other);
      if AddsNothing(p.origin == q.origin, q.tiers) {
        NothingAdded(of, b, other);
      } else {
        AbsorbedLog(of, b, other, order, (ours[a], theirs[a]));
        hide *;
        ClashAt(ours, theirs, a);
      }
    }
  }

  lemma ClashAt(ours: Entries, theirs: Entries, a: Atom)
    requires a in ours && a in theirs
    ensures ours[a] != theirs[a] ==> Clash(ours, theirs, (ours[a], theirs[a]))
  {
    if ours[a] != theirs[a] { assert Clashes(ours, theirs, (ours[a], theirs[a]), a); }
  }

  /** An interner that adds nothing holds no more than the base both share. */
  lemma NothingAdded(of: string -> Atom, b: History, other: History)
    requires Possible(of, b) && Possible(of, other)
    requires AddsNothing(After(of, b).origin == After(of, other).origin, After(of, other).tiers)
    ensures forall a :: a in FlatAfter(of, other) ==>
              a in FlatAfter(of, b) && FlatAfter(of, b)[a] == FlatAfter(of, other)[a]
  {
    TiersAreFlat(of, b);
    TiersAreFlat(of, other);
    TiersApart(of, b);
    OriginHoldsBase(of, b);
    OriginHoldsBase(of, other);
    hide After, FlatAfter, Possible;
    NothingOver(After(of, other).tiers.base);
  }

  lemma UnionInjective(of: string -> Atom, b: History, other: History)
    requires Injective(of, Texts(b)) && Injective(of, Texts(other))
    requires var ours, theirs := FlatAfter(of, b), FlatAfter(of, other);
             forall a :: a in ours && a in theirs ==> ours[a] == theirs[a]
    ensures Injective(of, Texts(b) + Texts(other))
  {
    FlatHoldsTexts(of, b);
    FlatHoldsTexts(of, other);
    hide Texts, FlatAfter;
  }

  /** Among texts no two of which share an atom nothing is recorded, so nothing can be lost. */
  lemma {:induction false} InjectiveKeeps(of: string -> Atom, h: History)
    requires Possible(of, h) && Injective(of, Texts(h))
    ensures Keeps(of, h) && After(of, h).tiers.log == []
  {
    LoggedAreGenuine(of, h);
    if After(of, h).tiers.log != [] { GenuineClashes(of, Texts(h), After(of, h).tiers.log); }
    hide After, MayOrder;
    match h
    case New(_) =>
    case Cloned(b, _) => InjectiveKeeps(of, b);
    case Interning(b, s) => InjectiveKeeps(of, b);
    case Absorbing(b, other, order) =>
      InjectiveKeeps(of, b);
      InjectiveKeeps(of, other);
  }

  lemma GenuineClashes(of: string -> Atom, texts: set<string>, log: seq<Collision>)
    requires log != [] && forall c :: c in log ==> Genuine(of, texts, c)
    ensures !Injective(of, texts)
  {
    assert Genuine(of, texts, log[0]);
  }

  /**
    * Over any history of interning, copying and absorbing: no two texts share an atom
    * exactly when no collision is recorded and none was lost, and while none is recorded
    * every text resolves to itself exactly when none was lost.
    */
  lemma CollisionsAreExact(of: string -> Atom, h: History)
    requires Possible(of, h)
    ensures var t := After(of, h).tiers;
            && (t.log == [] && Keeps(of, h) <==> Injective(of, Texts(h)))
            && (t.log == [] ==> (Resolve(of, t.Flat(), Texts(h)) <==> Keeps(of, h)))
  {
    if Injective(of, Texts(h)) { InjectiveKeeps(of, h); }
    if After(of, h).tiers.log == [] && Keeps(of, h) { UnloggedIsInjective(of, h); }
    ResolvesIffInjective(of, h);
  }

  /** While no collision is recorded, the texts an interner was given itself resolve to themselves. */
  lemma {:induction false} OwnTextsResolve(of: string -> Atom, h: History)
    requires Possible(of, h) && After(of, h).tiers.log == []
    ensures Resolve(of, After(of, h).tiers.Flat(), OwnTexts(h))
  {
    hide Put, Absorbed, MayOrder, Tiers.Flat;
    TiersAreFlat(of, h);
    if h.New? {
    } else {
      StepKeepsLog(of, h);
      OwnTextsResolve(of, h.before);
      TiersAreFlat(of, h.before);
      StepKeepsFlat(of, h);
      if h.Interning? { PutMeans(After(of, h.before).tiers, of(h.text), h.text); }
    }
  }

  // --- a collision that is lost -------------------------------------------------------

  /** A new interner given the texts in turn. */
  function InternedAll(texts: seq<string>): History {
    if texts == [] then New(0)
    else Interning(InternedAll(texts[..|texts| - 1]), texts[|texts| - 1])
  }

  ghost predicate DistinctAtoms(of: string -> Atom, texts: seq<string>) {
    forall i, j :: 0 <= i < j < |texts| ==> of(texts[i]) != of(texts[j])
  }

  ghost predicate HasAtom(of: string -> Atom, texts: seq<string>, a: Atom) {
    exists s :: s in texts && of(s) == a
  }

  ghost predicate Filled(of: string -> Atom, texts: seq<string>, p: State) {
    && p.tiers.base == map[] && p.tiers.log == [] && p.origin == New(0)
    && |p.tiers.delta| == |texts|
    && forall a :: a in p.tiers.delta <==> HasAtom(of, texts, a)
  }

  lemma {:induction false} FillsDelta(of: string -> Atom, texts: seq<string>)
    requires DistinctAtoms(of, texts) && |texts| < FREEZE_THRESHOLD
    ensures Possible(of, InternedAll(texts)) && Filled(of, texts, After(of, InternedAll(texts)))
  {
    if texts == [] {
    } else {
      var n := |texts| - 1;
      var init, last := texts[..n], texts[n];
      DistinctBefore(of, texts, n);
      FillsDelta(of, init);
      var p := After(of, InternedAll(init));
      NextAtom(of, texts, n);
      PutInDelta(p.tiers.delta, of(last), last);
      assert p.tiers == Tiers(map[], p.tiers.delta, []);
    }
  }

  lemma DistinctBefore(of: string -> Atom, texts: seq<string>, n: nat)
    requires n < |texts| && DistinctAtoms(of, texts)
    ensures DistinctAtoms(of, texts[..n]) && !HasAtom(of, texts[..n], of(texts[n]))
  {
    assert forall i :: 0 <= i < n ==> texts[..n][i] == texts[i];
  }

  lemma NextAtom(of: string -> Atom, texts: seq<string>, n: nat)
    requires n == |texts| - 1
    ensures forall a :: HasAtom(of, texts, a) <==> HasAtom(of, texts[..n], a) || a == of(texts[n])
  {
    assert texts == texts[..n] + [texts[n]];
    assert forall s :: s in texts <==> s in texts[..n] || s == texts[n];
  }

  lemma PutInDelta(delta: Entries, atom: Atom, text: string)
    requires atom !in delta
    ensures |delta| + 1 < FREEZE_THRESHOLD ==>
              Put(Tiers(map[], delta, []), atom, text) == Tiers(map[], delta[atom := text], [])
    ensures |delta| + 1 == FREEZE_THRESHOLD ==>
              Put(Tiers(map[], delta, []), atom, text) == Tiers(map[] + delta[atom := text], map[], [])
    ensures |delta[atom := text]| == |delta| + 1
  {
  }

  lemma {:induction false} TextsOfAll(texts: seq<string>)
    ensures forall s :: s in Texts(InternedAll(texts)) <==> s in texts
  {
    if texts == [] {
    } else {
      var n := |texts| - 1;
      TextsOfAll(texts[..n]);
      assert texts == texts[..n] + [texts[n]];
    }
  }

  /** With as many texts as the delta may hold, all of them lie in the base. */
  lemma FillsBase(of: string -> Atom, texts: seq<string>)
    requires DistinctAtoms(of, texts) && |texts| == FREEZE_THRESHOLD
    ensures Possible(of, InternedAll(texts))
    ensures After(of, InternedAll(texts)).tiers.delta == map[] && After(of, InternedAll(texts)).tiers.log == []
  {
    var n := |texts| - 1;
    DistinctBefore(of, texts, n);
    FillsDelta(of, texts[..n]);
    var p := After(of, InternedAll(texts[..n]));
    PutInDelta(p.tiers.delta, of(texts[n]), texts[n]);
    assert p.tiers == Tiers(map[], p.tiers.delta, []);
  }

  /**
    * What the guard of the early return costs: an interner whose texts are all in the base
    * absorbs a copy of itself that met a colliding text.  Nothing is recorded, and the text
    * resolves to another one.
    */
  lemma CollisionIsLost(of: string -> Atom, texts: seq<string>, s: string, t: string)
    requires DistinctAtoms(of, texts) && |texts| == FREEZE_THRESHOLD
    requires s in texts && t !in texts && of(s) == of(t)
    ensures var h := InternedAll(texts);
            var copy := Interning(Cloned(h, 1), t);
            var k := Absorbing(h, copy, []);
            && Possible(of, k) && t in Texts(k)
            && After(of, copy).tiers.log != [] && After(of, k).tiers.log == []
            && !Resolve(of, After(of, k).tiers.Flat(), {t})
  {
    var h := InternedAll(texts);
    FillsBase(of, texts);
    TextsOfAll(texts);
    TiersAreFlat(of, h);
    FlatHoldsTexts(of, h);
    hide *;
    CopyIsLost(of, h, t);
  }

  lemma CopyIsLost(of: string -> Atom, h: History, t: string)
    requires Possible(of, h) && After(of, h).tiers.delta == map[] && After(of, h).tiers.log == []
    requires of(t) in After(of, h).tiers.Flat() && After(of, h).tiers.Flat()[of(t)] != t
    ensures var copy := Interning(Cloned(h, 1), t);
            var k := Absorbing(h, copy, []);
            && Possible(of, k) && t in Texts(k)
            && After(of, copy).tiers.log != [] && After(of, k).tiers.log == []
            && !Resolve(of, After(of, k).tiers.Flat(), {t})
  {
    var p := After(of, h);
    var copy := Interning(Cloned(h, 1), t);
    var k := Absorbing(h, copy, []);
    ClashIsLost(p, of(t), t);
    assert After(of, copy) == State(Put(p.tiers, of(t), t), p.origin) by { assert After(of, Cloned(h, 1)) == p; }
    assert After(of, k).tiers == p.tiers;
    assert t in Texts(copy);
    assert Possible(of, copy) by { assert Possible(of, Cloned(h, 1)); }
  }

  lemma ClashIsLost(p: State, atom: Atom, text: string)
    requires p.tiers.delta == map[] && atom in p.tiers.Flat() && p.tiers.Flat()[atom] != text
    ensures var u := Put(p.tiers, atom, text);
            u.base == p.tiers.base && u.log != [] && AddsNothing(true, u) && Absorbed(p.tiers, u, true, []) == p.tiers
  {
  }

  /** Texts told apart by their length, up to a full delta. */
  function ByLength(s: string): Atom {
    |s| % FREEZE_THRESHOLD
  }

  function Marks(n: nat): string {
    seq(n, _ => 'x')
  }

  /** A hash and texts to which the loss happens. */
  lemma LossHappens()
    ensures exists h :: var t := After(ByLength, h).tiers;
            Possible(ByLength, h) && t.log == [] && !Resolve(ByLength, t.Flat(), Texts(h))
  {
    var texts := seq(FREEZE_THRESHOLD, i requires 0 <= i => Marks(i));
    var t := Marks(FREEZE_THRESHOLD);
    assert Marks(0) == texts[0];
    assert |t| == FREEZE_THRESHOLD && forall i :: 0 <= i < |texts| ==> |texts[i]| == i;
    CollisionIsLost(ByLength, texts, Marks(0), t);
    var h := InternedAll(texts);
    var k := Absorbing(h, Interning(Cloned(h, 1), t), []);
    hide After, Possible, Texts, InternedAll;
    assert t in Texts(k);
  }

  /** The same on the interner itself. */
  method LoseCollision(interner: Interner, text: string) returns (found: Option<Atom>)
    requires interner.Valid() && interner.delta == map[] && interner.collisions == []
    requires interner.of(text) in interner.Flat() && interner.Flat()[interner.of(text)] != text
    modifies interner
    ensures interner.Now() == old(interner.Now()) && found == None
  {
    var copy := new Interner.Clone(interner);
    ClashIsLost(State(interner.Now(), New(0)), interner.of(text), text);
    var atom := copy.Intern(text);
    assert copy.base == interner.base;
    ghost var order := interner.Absorb(copy);
    found := interner.Get(text);
  }
}
