/** What the type-descriptor code promises: reading undoes writing, and nothing is a prefix of anything else. */
module TypeDescRoundTrip {
  import opened Wrappers
  import opened NumberText
  import opened TypeDescCodec

  // --- taking off what was put on -----------------------------------------------

  lemma {:induction false} TakeUntilAt(head: string, stop: char, s: string)
    requires stop !in head
    ensures TakeUntil(head + [stop] + s, stop) == Done(head, s)
  {
    var x := head + [stop] + s;
    if head == "" {
      assert x[1..] == s;
    } else {
      TakeUntilAt(head[1..], stop, s);
      assert x[1..] == head[1..] + [stop] + s;
      assert [head[0]] + head[1..] == head;
    }
  }

  lemma {:induction false} TakeBytesAt(head: string, s: string)
    ensures TakeBytes(head + s, ByteLen(head)) == Done(head, s)
  {
    if head == "" {
      assert head + s == s;
    } else {
      TakeBytesAt(head[1..], s);
      assert (head + s)[1..] == head[1..] + s && (head + s)[0] == head[0];
      assert [head[0]] + head[1..] == head;
      OneByteMore(head + s, ByteLen(head));
      hide TakeBytes, Utf8Len;
    }
  }

  lemma OneByteMore(s: string, n: nat)
    requires s != "" && n >= Utf8Len(s[0])
    ensures var t := TakeBytes(s[1..], n - Utf8Len(s[0]));
            TakeBytes(s, n) == if t.Done? then Done([s[0]] + t.value, t.rest) else Fail
  {
  }

  lemma TakeNumberAt(n: nat, stop: char, limit: nat, s: string)
    requires n < limit && !IsDigit(stop)
    ensures TakeNumber(Digits(n) + [stop] + s, stop, limit) == Done(n, s)
  {
    TakeUntilAt(Digits(n), stop, s);
    UnsignedReadsBack(n, limit);
  }

  lemma Regroup(a: string, b: string, s: string)
    ensures (a + b) + s == a + (b + s)
  {
  }

  lemma TakeNumberOff(n: nat, stop: char, limit: nat, body: string, s: string)
    requires n < limit && !IsDigit(stop)
    ensures TakeNumber((Digits(n) + [stop] + body) + s, stop, limit) == Done(n, body + s)
  {
    hide *;
    Regroup(Digits(n) + [stop], body, s);
    TakeNumberAt(n, stop, limit, body + s);
  }

  // --- reading undoes writing ---------------------------------------------------------

  lemma LiteralRoundTrip(v: TypeLiteral, s: string)
    requires v.StrLit? ==> ByteLen(v.s) < TWO_64
    ensures DecodeLiteral(EncodeLiteral(v) + s) == Done(v, s)
  {
    match v
    case IntLit(n) => IntLiteralRoundTrip(n, s);
    case StrLit(t) => StrLiteralRoundTrip(t, s);
    case BoolLit(b) => assert (EncodeLiteral(v) + s)[1..] == s;
    case CharLit(c) => assert (EncodeLiteral(v) + s)[2..] == s;
  }

  lemma StrLiteralRoundTrip(t: string, s: string)
    requires ByteLen(t) < TWO_64
    ensures DecodeLiteral(EncodeLiteral(StrLit(t)) + s) == Done(StrLit(t), s)
  {
    var x := EncodeLiteral(StrLit(t)) + s;
    assert x[1..] == (Digits(ByteLen(t)) + ":" + t) + s;
    TakeNumberOff(ByteLen(t), ':', TWO_64, t, s);
    TakeBytesAt(t, s);
    hide TakeNumber, TakeBytes, Digits, ByteLen;
  }

  lemma IntLiteralRoundTrip(n: I64, s: string)
    ensures DecodeLiteral(EncodeLiteral(IntLit(n)) + s) == Done(IntLit(n), s)
  {
    hide IntText, ParseI64, TakeUntil;
    var x := EncodeLiteral(IntLit(n)) + s;
    assert x[1..] == IntText(n) + [';'] + s;
    NoSemicolon(n);
    TakeUntilAt(IntText(n), ';', s);
    IntReadsBack(n);
  }

  lemma NoSemicolon(n: int)
    ensures ';' !in IntText(n)
  {
  }

  lemma NamedRoundTrip(c: char, n: U32, name: string, s: string)
    requires NamedTag(c) && ';' !in name
    ensures DecodeNamed(c, Named(n, name) + s) == Done(NamedOf(c, n, name), s)
  {
    hide Digits, TakeNumber, TakeUntil;
    TakeNumberOff(n, ':', TWO_32, name + ";", s);
    assert (name + ";") + s == name + [';'] + s;
    TakeUntilAt(name, ';', s);
  }

  lemma LeafRoundTrip(t: TypeDesc)
    requires LeafTag(t).Some?
    ensures LeafOf(LeafTag(t).value) == Some(t)
  {
  }

  lemma {:induction false} RoundTrip(t: TypeDesc, s: string)
    requires Clean(t) && Sized(t)
    ensures DecodeOne(Encode(t) + s) == Done(t, s)
    decreases t, 1
  {
    hide DecodeNamed, DecodeLiteral, DecodeMap, DecodeCounted, DecodeArgs, DecodeObject, Named, EncodeLiteral;
    if LeafTag(t).Some? {
      LeafRoundTrip(t);
      assert (Encode(t) + s)[1..] == s;
    } else {
      match t
      case Literal(v) =>
        assert (Encode(t) + s)[1..] == EncodeLiteral(v) + s;
        LiteralRoundTrip(v, s);
      case Array(el) => WrapperRoundTrip(t, el, s);
      case Set(el) => WrapperRoundTrip(t, el, s);
      case Dict(el) => WrapperRoundTrip(t, el, s);
      case Nullable(el) => WrapperRoundTrip(t, el, s);
      case Map(_, _) => MapRoundTrip(t, s);
      case Tuple(_) => TupleRoundTrip(t, s);
      case Class(n, name) =>
        assert (Encode(t) + s)[1..] == Named(n, name) + s;
        NamedRoundTrip('C', n, name, s);
      case Enum(n, name) =>
        assert (Encode(t) + s)[1..] == Named(n, name) + s;
        NamedRoundTrip('E', n, name, s);
      case Enclosing(n, name) =>
        assert (Encode(t) + s)[1..] == Named(n, name) + s;
        NamedRoundTrip('R', n, name, s);
      case Args(_, _) => ArgsRoundTrip(t, s);
      case Object(_) => ObjectRoundTrip(t, s);
    }
  }

  lemma WrapperTagged(x: string)
    requires x != "" && WrapperTag(x[0])
    ensures var el := DecodeOne(x[1..]);
            DecodeOne(x) == if el.Done? then Done(WrapperOf(x[0], el.value).value, el.rest) else Fail
  {
    hide DecodeMap, DecodeNamed, DecodeLiteral, DecodeCounted, DecodeArgs, DecodeObject;
  }

  predicate Wraps(tag: char, t: TypeDesc, el: TypeDesc) {
    WrapperTag(tag) && WrapperOf(tag, el) == Some(t)
  }

  lemma WrapperText(t: TypeDesc, el: TypeDesc) returns (tag: char)
    requires t == Array(el) || t == Set(el) || t == Dict(el) || t == Nullable(el)
    ensures Wraps(tag, t, el) && Encode(t) == [tag] + Encode(el)
  {
    tag := Encode(t)[0];
  }

  lemma {:induction false} WrapperRoundTrip(t: TypeDesc, el: TypeDesc, s: string)
    requires t == Array(el) || t == Set(el) || t == Dict(el) || t == Nullable(el)
    requires Clean(el) && Sized(el)
    ensures DecodeOne(Encode(t) + s) == Done(t, s)
    decreases t, 0
  {
    hide DecodeOne, Encode, Clean, Sized;
    var tag := WrapperText(t, el);
    var x := Encode(t) + s;
    Regroup([tag], Encode(el), s);
    assert x[0] == tag && x[1..] == Encode(el) + s;
    RoundTrip(el, s);
    WrapperTagged(x);
  }

  lemma MapTagged(x: string)
    requires x != "" && x[0] == 'M'
    ensures DecodeOne(x) == DecodeMap(x[1..])
  {
    hide DecodeMap, DecodeNamed, DecodeLiteral, DecodeCounted, DecodeArgs, DecodeObject;
  }

  lemma MapEncoded(t: TypeDesc, s: string)
    requires t.Map?
    ensures var x := Encode(t) + s;
            x != "" && DecodeOne(x) == DecodeMap(Encode(t.key) + (Encode(t.val) + s))
  {
    hide DecodeMap, DecodeOne;
    var x := Encode(t) + s;
    MapText(t);
    hide Encode;
    Regroup(Encode(t.key), Encode(t.val), s);
    assert x[1..] == Encode(t.key) + Encode(t.val) + s;
    MapTagged(x);
  }

  lemma MapText(t: TypeDesc)
    requires t.Map?
    ensures Encode(t) == "M" + (Encode(t.key) + Encode(t.val))
  {
  }

  lemma {:induction false} MapRoundTrip(t: TypeDesc, s: string)
    requires t.Map? && Clean(t) && Sized(t)
    ensures DecodeOne(Encode(t) + s) == Done(t, s)
    decreases t, 0
  {
    hide DecodeOne, Encode;
    MapEncoded(t, s);
    RoundTrip(t.key, Encode(t.val) + s);
    RoundTrip(t.val, s);
  }

  lemma {:induction false} AllRoundTrip(ts: seq<TypeDesc>, s: string)
    requires CleanAll(ts) && SizedAll(ts)
    ensures DecodeAll(|ts|, EncodeAll(ts) + s) == Done(ts, s)
    decreases ts, 0
  {
    if ts == [] {
      assert EncodeAll(ts) + s == s;
    } else {
      hide DecodeOne, Encode, Clean, Sized;
      var head, tail := Encode(ts[0]), EncodeAll(ts[1..]);
      Regroup(head, tail, s);
      RoundTrip(ts[0], tail + s);
      AllRoundTrip(ts[1..], s);
      assert [ts[0]] + ts[1..] == ts;
    }
  }

  lemma {:induction false} CountedRoundTrip(ts: seq<TypeDesc>, s: string)
    requires CleanAll(ts) && SizedAll(ts) && |ts| < TWO_64
    ensures DecodeCounted((Digits(|ts|) + ";" + EncodeAll(ts)) + s) == Done(ts, s)
    decreases ts, 1
  {
    hide DecodeAll, EncodeAll, CleanAll, SizedAll, TakeNumber, Digits;
    TakeNumberOff(|ts|, ';', TWO_64, EncodeAll(ts), s);
    AllRoundTrip(ts, s);
    CountedUnfold((Digits(|ts|) + ";" + EncodeAll(ts)) + s);
  }

  lemma CountedUnfold(s: string)
    ensures var n := TakeNumber(s, ';', TWO_64);
            DecodeCounted(s) == if n.Fail? then Fail else DecodeAll(n.value, n.rest)
  {
  }

  lemma {:induction false} TupleRoundTrip(t: TypeDesc, s: string)
    requires t.Tuple? && Clean(t) && Sized(t)
    ensures DecodeOne(Encode(t) + s) == Done(t, s)
    decreases t, 0
  {
    hide DecodeCounted, EncodeAll;
    var els := t.els;
    assert (Encode(t) + s)[1..] == (Digits(|els|) + ";" + EncodeAll(els)) + s;
    CountedRoundTrip(els, s);
  }

  function ArgsTail(rest: Option<TypeDesc>): string {
    if rest.Some? then "+" + Encode(rest.value) else "."
  }

  lemma ArgsEncoded(t: TypeDesc, s: string)
    requires t.Args?
    ensures var x := Encode(t) + s;
            && x != ""
            && DecodeOne(x) == DecodeArgs((Digits(|t.fixed|) + ";" + EncodeAll(t.fixed)) + (ArgsTail(t.rest) + s))
  {
    hide DecodeArgs, EncodeAll, Digits;
    var x := Encode(t) + s;
    var counted, tail := Digits(|t.fixed|) + ";" + EncodeAll(t.fixed), ArgsTail(t.rest);
    assert x == "A" + (Digits(|t.fixed|) + ";" + (EncodeAll(t.fixed) + tail)) + s;
    assert x[1..] == counted + (tail + s);
  }

  lemma {:induction false} ArgsRoundTrip(t: TypeDesc, s: string)
    requires t.Args? && Clean(t) && Sized(t)
    ensures DecodeOne(Encode(t) + s) == Done(t, s)
    decreases t, 0
  {
    hide DecodeCounted, DecodeOne, Encode, EncodeAll, CleanAll, SizedAll, Digits;
    var rest := t.rest;
    var tail := ArgsTail(rest) + s;
    ArgsEncoded(t, s);
    CountedRoundTrip(t.fixed, tail);
    if rest.Some? {
      assert tail[1..] == Encode(rest.value) + s;
      RoundTrip(rest.value, s);
    } else {
      assert tail[1..] == s;
    }
  }

  lemma {:induction false} FieldRoundTrip(f: FieldDesc, s: string)
    requires CleanField(f) && SizedField(f)
    ensures DecodeField(EncodeField(f) + s) == Done(f, s)
    decreases f, 0
  {
    hide DecodeOne, Encode, TakeNumber, TakeBytes, Clean, Sized, Digits, ByteLen;
    var m := Marker(f.optional, f.readonly);
    var tail := [m] + Encode(f.ty);
    TakeNumberOff(ByteLen(f.name), ':', TWO_64, f.name + tail, s);
    Regroup(f.name, tail, s);
    TakeBytesAt(f.name, tail + s);
    assert (tail + s)[0] == m && (tail + s)[1..] == Encode(f.ty) + s;
    RoundTrip(f.ty, s);
  }

  lemma {:induction false} FieldsRoundTrip(fs: seq<FieldDesc>, s: string)
    requires CleanFields(fs) && SizedFields(fs)
    ensures DecodeFields(|fs|, EncodeFields(fs) + s) == Done(fs, s)
    decreases fs, 0
  {
    if fs == [] {
      assert EncodeFields(fs) + s == s;
    } else {
      hide DecodeField, EncodeField, CleanField, SizedField;
      var head, tail := EncodeField(fs[0]), EncodeFields(fs[1..]);
      Regroup(head, tail, s);
      FieldRoundTrip(fs[0], tail + s);
      FieldsRoundTrip(fs[1..], s);
      assert [fs[0]] + fs[1..] == fs;
    }
  }

  lemma {:induction false} ObjectRoundTrip(t: TypeDesc, s: string)
    requires t.Object? && Clean(t) && Sized(t)
    ensures DecodeOne(Encode(t) + s) == Done(t, s)
    decreases t, 0
  {
    hide DecodeFields, EncodeFields, CleanFields, SizedFields, TakeNumber, Digits;
    var fs := t.fields;
    assert (Encode(t) + s)[1..] == (Digits(|fs|) + ";" + EncodeFields(fs)) + s;
    TakeNumberOff(|fs|, ';', TWO_64, EncodeFields(fs), s);
    FieldsRoundTrip(fs, s);
  }

  // --- whatever is read is clean ---------------------------------------------------------

  lemma {:induction false} ReadIsClean(s: string)
    requires DecodeOne(s).Done?
    ensures Clean(DecodeOne(s).value) && Sized(DecodeOne(s).value)
    decreases |s|, 3
  {
    hide DecodeNamed, DecodeLiteral, DecodeMap, DecodeCounted, DecodeArgs, DecodeObject;
    var c, s' := s[0], s[1..];
    if LeafOf(c).Some? {
    } else if WrapperTag(c) {
      ReadIsClean(s');
    } else if NamedTag(c) {
      NamedIsClean(c, s');
    } else if c == 'L' {
      LiteralIsSized(s');
    } else if c == 'M' {
      MapIsClean(s');
    } else if c == 'T' {
      CountedIsClean(s');
    } else if c == 'A' {
      ArgsIsClean(s');
    } else {
      ObjectIsClean(s');
    }
  }

  lemma NamedIsClean(c: char, s: string)
    requires DecodeNamed(c, s).Done?
    ensures Clean(DecodeNamed(c, s).value) && Sized(DecodeNamed(c, s).value)
  {
  }

  lemma LiteralIsSized(s: string)
    requires DecodeLiteral(s).Done?
    ensures var v := DecodeLiteral(s).value; v.StrLit? ==> ByteLen(v.s) < TWO_64
  {
    hide TakeUntil, ParseI64;
  }

  lemma {:induction false} MapIsClean(s: string)
    requires DecodeMap(s).Done?
    ensures Clean(DecodeMap(s).value) && Sized(DecodeMap(s).value)
    decreases |s|, 4
  {
    ReadIsClean(s);
    ReadIsClean(DecodeOne(s).rest);
  }

  lemma {:induction false} CountedIsClean(s: string)
    requires DecodeCounted(s).Done?
    ensures var ts := DecodeCounted(s).value; CleanAll(ts) && SizedAll(ts) && |ts| < TWO_64
    decreases |s|, 5
  {
    var n := TakeNumber(s, ';', TWO_64);
    AllIsClean(n.value, n.rest);
  }

  lemma {:induction false} AllIsClean(n: nat, s: string)
    requires DecodeAll(n, s).Done?
    ensures var ts := DecodeAll(n, s).value; CleanAll(ts) && SizedAll(ts)
    decreases |s|, 4
  {
    hide DecodeOne, Clean, Sized;
    if n > 0 {
      ReadIsClean(s);
      AllIsClean(n - 1, DecodeOne(s).rest);
    }
  }

  lemma {:induction false} ArgsIsClean(s: string)
    requires DecodeArgs(s).Done?
    ensures Clean(DecodeArgs(s).value) && Sized(DecodeArgs(s).value)
    decreases |s|, 6
  {
    hide DecodeCounted, DecodeOne;
    CountedIsClean(s);
    var fixed := DecodeCounted(s);
    if fixed.rest[0] == '+' { ReadIsClean(fixed.rest[1..]); }
  }

  lemma {:induction false} ObjectIsClean(s: string)
    requires DecodeObject(s).Done?
    ensures Clean(DecodeObject(s).value) && Sized(DecodeObject(s).value)
    decreases |s|, 6
  {
    hide DecodeFields;
    var n := TakeNumber(s, ';', TWO_64);
    FieldsAreClean(n.value, n.rest);
  }

  lemma {:induction false} FieldsAreClean(n: nat, s: string)
    requires DecodeFields(n, s).Done?
    ensures var fs := DecodeFields(n, s).value; CleanFields(fs) && SizedFields(fs)
    decreases |s|, 5
  {
    hide DecodeField, CleanField, SizedField;
    if n > 0 {
      FieldIsClean(s);
      FieldsAreClean(n - 1, DecodeField(s).rest);
    }
  }

  lemma {:induction false} FieldIsClean(s: string)
    requires DecodeField(s).Done?
    ensures CleanField(DecodeField(s).value) && SizedField(DecodeField(s).value)
    decreases |s|, 4
  {
    hide DecodeOne, TakeNumber, TakeBytes;
    var n := TakeNumber(s, ':', TWO_64);
    var name := TakeBytes(n.rest, n.value);
    ReadIsClean(name.rest[1..]);
  }

  // --- main results --------------------------------------------------------------------

  /** A descriptor survives writing and reading exactly when its names hold no terminator. */
  lemma SurvivesIffClean(t: TypeDesc)
    requires Sized(t)
    ensures Decode(Encode(t)) == Some(t) <==> Clean(t)
  {
    hide DecodeOne, Encode, Clean, Sized;
    assert Encode(t) + "" == Encode(t);
    if Clean(t) { RoundTrip(t, ""); }
    if Decode(Encode(t)) == Some(t) { ReadIsClean(Encode(t)); }
  }

  /** Reading and writing again is stable, whatever spelling of a number was read. */
  lemma RewritingIsStable(text: string)
    requires Decode(text).Some?
    ensures Decode(Encode(Decode(text).value)) == Decode(text)
  {
    hide DecodeOne, Encode, Clean, Sized;
    ReadIsClean(text);
    SurvivesIffClean(Decode(text).value);
  }

  /** No encoding is a proper prefix of another, and none stands for two descriptors. */
  lemma PrefixFree(t: TypeDesc, u: TypeDesc)
    requires Clean(t) && Sized(t) && Clean(u) && Sized(u)
    requires Encode(t) <= Encode(u)
    ensures t == u
  {
    hide DecodeOne, Encode, Clean, Sized;
    var s := Encode(u)[|Encode(t)|..];
    assert Encode(u) == Encode(t) + s && Encode(u) + "" == Encode(u);
    RoundTrip(t, s);
    RoundTrip(u, "");
  }

  /** With a `;` in a name, the text read back stops at it. */
  lemma TerminatorCutsName(n: U32, head: string, tail: string)
    requires ';' !in head
    ensures var t := Class(n, head + ";" + tail);
            DecodeOne(Encode(t)) == Done(Class(n, head), tail + ";")
  {
    hide DecodeNamed, Named;
    var t := Class(n, head + ";" + tail);
    var cut := Class(n, head);
    assert Encode(t) == Encode(cut) + (tail + ";") by {
      CutText(n, head, tail);
    }
    RoundTrip(cut, tail + ";");
  }

  lemma CutText(n: U32, head: string, tail: string)
    ensures "C" + Named(n, head + ";" + tail) == "C" + Named(n, head) + (tail + ";")
  {
    hide Digits;
    var d := Digits(n) + ":";
    assert d + ((head + ";" + tail) + ";") == d + (head + ";") + (tail + ";");
    assert "C" + (d + (head + ";") + (tail + ";")) == "C" + (d + (head + ";")) + (tail + ";");
  }
}
