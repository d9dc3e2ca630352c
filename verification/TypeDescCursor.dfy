/** The descriptor code as it is run: a string that grows and a cursor that advances. */
module TypeDescCursor {
  import opened Wrappers
  import opened NumberText
  import opened TypeDescCodec
  import opened TypeDescRoundTrip

  lemma {:induction false} EncodeAllSplit(ts: seq<TypeDesc>, i: nat)
    requires i < |ts|
    ensures EncodeAll(ts[..i + 1]) == EncodeAll(ts[..i]) + Encode(ts[i])
  {
    hide Encode;
    if i == 0 {
      assert ts[..1][1..] == [] && ts[..0] == [];
    } else {
      EncodeAllSplit(ts[1..], i - 1);
      assert ts[..i + 1][1..] == ts[1..][..i] && ts[..i][1..] == ts[1..][..i - 1];
      Regroup(Encode(ts[0]), EncodeAll(ts[1..][..i - 1]), Encode(ts[i]));
    }
  }

  lemma {:induction false} EncodeFieldsSplit(fs: seq<FieldDesc>, i: nat)
    requires i < |fs|
    ensures EncodeFields(fs[..i + 1]) == EncodeFields(fs[..i]) + EncodeField(fs[i])
  {
    hide EncodeField;
    if i == 0 {
      assert fs[..1][1..] == [] && fs[..0] == [];
    } else {
      EncodeFieldsSplit(fs[1..], i - 1);
      assert fs[..i + 1][1..] == fs[1..][..i] && fs[..i][1..] == fs[1..][..i - 1];
      Regroup(EncodeField(fs[0]), EncodeFields(fs[1..][..i - 1]), EncodeField(fs[i]));
    }
  }

  class Writer {
    var out: string

    constructor ()
      ensures out == ""
    {
      out := "";
    }

    method EncodeInto(t: TypeDesc)
      modifies this
      ensures out == old(out) + Encode(t)
      decreases t, 2
    {
      hide EncodeAll, EncodeFields, EncodeLiteral, Named;
      match t
      case Literal(v) => out := out + "L" + EncodeLiteral(v);
      case Array(el) => Tagged('[', el);
      case Set(el) => Tagged('Z', el);
      case Dict(el) => Tagged('D', el);
      case Nullable(el) => Tagged('?', el);
      case Map(_, _) => PutMap(t);
      case Tuple(els) =>
        ghost var before := out;
        out := out + "T";
        PutCounted(els);
        Regroup(before, "T", Digits(|els|) + ";" + EncodeAll(els));
      case Class(n, name) => out := out + ("C" + Named(n, name));
      case Enum(n, name) => out := out + ("E" + Named(n, name));
      case Enclosing(n, name) => out := out + ("R" + Named(n, name));
      case Args(_, _) => PutArgs(t);
      case Object(_) => PutObject(t);
      case _ => out := out + [LeafTag(t).value];
    }

    method Tagged(tag: char, el: TypeDesc)
      modifies this
      ensures out == old(out) + ([tag] + Encode(el))
      decreases el, 3
    {
      ghost var before := out;
      out := out + [tag];
      EncodeInto(el);
      Regroup(before, [tag], Encode(el));
    }

    method PutMap(t: TypeDesc)
      requires t.Map?
      modifies this
      ensures out == old(out) + Encode(t)
      decreases t, 1
    {
      ghost var before := out;
      out := out + "M";
      EncodeInto(t.key);
      EncodeInto(t.val);
      assert before + "M" + Encode(t.key) + Encode(t.val) == before + ("M" + (Encode(t.key) + Encode(t.val)));
    }

    method PutCounted(ts: seq<TypeDesc>)
      modifies this
      ensures out == old(out) + (Digits(|ts|) + ";" + EncodeAll(ts))
      decreases ts, 0
    {
      hide Encode, EncodeAll, Digits;
      ghost var before := out;
      out := out + (Digits(|ts|) + ";");
      ghost var start := out;
      EncodeAllEmpty();
      for i := 0 to |ts|
        invariant out == start + EncodeAll(ts[..i])
      {
        EncodeAllSplit(ts, i);
        Regroup(start, EncodeAll(ts[..i]), Encode(ts[i]));
        EncodeInto(ts[i]);
      }
      assert ts[..|ts|] == ts;
      Regroup(before, Digits(|ts|) + ";", EncodeAll(ts));
    }

    method PutTail(rest: Option<TypeDesc>)
      modifies this
      ensures out == old(out) + ArgsTail(rest)
      decreases rest, 0
    {
      match rest
      case Some(el) => Tagged('+', el);
      case None => out := out + ".";
    }

    method PutArgs(t: TypeDesc)
      requires t.Args?
      modifies this
      ensures out == old(out) + Encode(t)
      decreases t, 1
    {
      hide Encode, EncodeAll, Digits, ArgsTail;
      ghost var before := out;
      out := out + "A";
      PutCounted(t.fixed);
      PutTail(t.rest);
      ArgsText(before, t);
    }

    method PutObject(t: TypeDesc)
      requires t.Object?
      modifies this
      ensures out == old(out) + Encode(t)
      decreases t, 1
    {
      hide EncodeField, EncodeFields, Digits;
      ghost var before := out;
      var fs := t.fields;
      out := out + ("O" + (Digits(|fs|) + ";"));
      ghost var start := out;
      EncodeFieldsEmpty();
      for i := 0 to |fs|
        invariant out == start + EncodeFields(fs[..i])
      {
        EncodeFieldsSplit(fs, i);
        Regroup(start, EncodeFields(fs[..i]), EncodeField(fs[i]));
        PutField(fs[i]);
      }
      assert fs[..|fs|] == fs;
      ObjectText(before, t);
    }

    method PutField(f: FieldDesc)
      modifies this
      ensures out == old(out) + EncodeField(f)
      decreases f, 0
    {
      ghost var before := out;
      out := out + Digits(ByteLen(f.name));
      out := out + ":";
      out := out + f.name;
      out := out + [Marker(f.optional, f.readonly)];
      EncodeInto(f.ty);
      FieldText(before, f);
    }
  }

  /** The cursor's answer and position are those of the parse; a failed one leaves it anywhere. */
  ghost predicate Follows<T(!new)>(r: Option<T>, rest: string, spec: Parse<T>) {
    if spec.Done? then r == Some(spec.value) && rest == spec.rest else r == None
  }

  lemma AllStep(n: nat, s: string)
    requires n > 0
    ensures var t := DecodeOne(s);
            DecodeAll(n, s) == if t.Fail? then Fail else Prepend([t.value], DecodeAll(n - 1, t.rest))
  {
  }

  lemma FieldsStep(n: nat, s: string)
    requires n > 0
    ensures var f := DecodeField(s);
            DecodeFields(n, s) == if f.Fail? then Fail else Prepend([f.value], DecodeFields(n - 1, f.rest))
  {
  }

  function Prepend<T>(head: seq<T>, r: Parse<seq<T>>): Parse<seq<T>> {
    if r.Done? then Done(head + r.value, r.rest) else Fail
  }

  lemma PrependTwice<T>(a: seq<T>, b: seq<T>, r: Parse<seq<T>>)
    ensures Prepend(a, Prepend(b, r)) == Prepend(a + b, r)
    ensures Prepend(a, Fail) == Fail
    ensures Prepend([], r) == r
  {
    if r.Done? {
      assert a + (b + r.value) == (a + b) + r.value;
      assert [] + r.value == r.value;
    }
  }

  class Reader {
    var rest: string

    constructor (text: string)
      ensures rest == text
    {
      rest := text;
    }

    /** The next character, or nothing at the end. */
    method Next() returns (c: Option<char>)
      modifies this
      ensures c == if old(rest) == "" then None else Some(old(rest)[0])
      ensures c.Some? ==> rest == old(rest)[1..]
    {
      if rest == "" { return None; }
      c := Some(rest[0]);
      rest := rest[1..];
    }

    method Until(stop: char) returns (r: Option<string>)
      modifies this
      ensures Follows(r, rest, TakeUntil(old(rest), stop))
    {
      ghost var text := rest;
      for at := 0 to |rest|
        invariant rest == text && stop !in text[..at]
      {
        if rest[at] == stop {
          r := Some(rest[..at]);
          TakeUntilAt(rest[..at], stop, rest[at + 1..]);
          assert text == text[..at] + [stop] + text[at + 1..];
          rest := rest[at + 1..];
          return;
        }
      }
      assert text[..|text|] == text;
      r := None;
    }

    method Number(stop: char, limit: nat) returns (n: Option<nat>)
      modifies this
      ensures Follows(n, rest, TakeNumber(old(rest), stop, limit))
    {
      var head := Until(stop);
      if head.None? { return None; }
      n := ParseUnsigned(head.value, limit);
    }

    method Bytes(n: nat) returns (r: Option<string>)
      modifies this
      ensures Follows(r, rest, TakeBytes(old(rest), n))
    {
      var t := TakeBytes(rest, n);
      if t.Fail? { return None; }
      rest := t.rest;
      r := Some(t.value);
    }

    method ReadLiteral() returns (r: Option<TypeLiteral>)
      modifies this
      ensures Follows(r, rest, DecodeLiteral(old(rest)))
    {
      hide TakeUntil, TakeNumber, TakeBytes, ParseI64;
      var tag := Next();
      if tag.None? { return None; }
      if tag.value == 'i' {
        var head := Until(';');
        if head.None? { return None; }
        var n := ParseI64(head.value);
        r := if n.Some? then Some(IntLit(n.value)) else None;
      } else if tag.value == 's' {
        var len := Number(':', TWO_64);
        if len.None? { return None; }
        var text := Bytes(len.value);
        r := if text.Some? then Some(StrLit(text.value)) else None;
      } else if tag.value == 't' || tag.value == 'f' {
        r := Some(BoolLit(tag.value == 't'));
      } else if tag.value == 'c' {
        var c := Next();
        r := if c.Some? then Some(CharLit(c.value)) else None;
      } else {
        r := None;
      }
    }

    method ReadNamed(c: char) returns (r: Option<TypeDesc>)
      modifies this
      ensures Follows(r, rest, DecodeNamed(c, old(rest)))
    {
      hide TakeUntil, TakeNumber;
      var n := Number(':', TWO_32);
      if n.None? { return None; }
      var name := Until(';');
      if name.None? { return None; }
      r := Some(NamedOf(c, n.value, name.value));
    }

    method ReadOne() returns (r: Option<TypeDesc>)
      modifies this
      ensures Follows(r, rest, DecodeOne(old(rest)))
      decreases |rest|, 3
    {
      hide DecodeNamed, DecodeLiteral, DecodeMap, DecodeCounted, DecodeArgs, DecodeObject;
      var tag := Next();
      if tag.None? { return None; }
      var c := tag.value;
      if LeafOf(c).Some? {
        r := LeafOf(c);
      } else if WrapperTag(c) {
        var el := ReadOne();
        r := if el.Some? then WrapperOf(c, el.value) else None;
      } else if NamedTag(c) {
        r := ReadNamed(c);
      } else if c == 'L' {
        var v := ReadLiteral();
        r := if v.Some? then Some(Literal(v.value)) else None;
      } else if c == 'M' {
        r := ReadMap();
      } else if c == 'T' {
        var els := ReadCounted();
        r := if els.Some? then Some(Tuple(els.value)) else None;
      } else if c == 'A' {
        r := ReadArgs();
      } else if c == 'O' {
        r := ReadObject();
      } else {
        r := None;
      }
    }

    method ReadMap() returns (r: Option<TypeDesc>)
      modifies this
      ensures Follows(r, rest, DecodeMap(old(rest)))
      decreases |rest|, 4
    {
      hide DecodeOne;
      var k := ReadOne();
      if k.None? { return None; }
      var v := ReadOne();
      r := if v.Some? then Some(Map(k.value, v.value)) else None;
    }

    method ReadCounted() returns (r: Option<seq<TypeDesc>>)
      modifies this
      ensures Follows(r, rest, DecodeCounted(old(rest)))
      decreases |rest|, 5
    {
      hide DecodeOne, DecodeAll, TakeNumber;
      ghost var text := rest;
      var n := Number(';', TWO_64);
      if n.None? { return None; }
      ghost var start := rest;
      var els := [];
      PrependTwice([], [], DecodeAll(n.value, start));
      for i := 0 to n.value
        invariant |rest| <= |start| < |text| && |els| == i
        invariant DecodeAll(n.value, start) == Prepend(els, DecodeAll(n.value - i, rest))
      {
        AllStep(n.value - i, rest);
        var t := ReadOne();
        if t.None? { return None; }
        PrependTwice(els, [t.value], DecodeAll(n.value - i - 1, rest));
        els := els + [t.value];
      }
      AllDone(rest);
      PrependTwice(els, [], Done([], rest));
      assert els + [] == els;
      r := Some(els);
    }

    method ReadArgs() returns (r: Option<TypeDesc>)
      modifies this
      ensures Follows(r, rest, DecodeArgs(old(rest)))
      decreases |rest|, 6
    {
      hide DecodeOne, DecodeCounted;
      var fixed := ReadCounted();
      if fixed.None? { return None; }
      var marker := Next();
      if marker.None? { return None; }
      if marker.value == '+' {
        var tail := ReadOne();
        r := if tail.Some? then Some(Args(fixed.value, tail)) else None;
      } else if marker.value == '.' {
        r := Some(Args(fixed.value, None));
      } else {
        r := None;
      }
    }

    method ReadField() returns (r: Option<FieldDesc>)
      modifies this
      ensures Follows(r, rest, DecodeField(old(rest)))
      decreases |rest|, 4
    {
      hide DecodeOne, TakeNumber, TakeBytes;
      ghost var text := rest;
      var len := Number(':', TWO_64);
      if len.None? { return None; }
      var name := Bytes(len.value);
      if name.None? { return None; }
      assert |rest| < |text|;
      var marker := Next();
      if marker.None? { return None; }
      var m := marker.value;
      if m != '~' && m != '?' && m != '!' && m != '^' { return None; }
      var ty := ReadOne();
      if ty.None? { return None; }
      r := Some(FieldDesc(name.value, ty.value, m == '~' || m == '?', m == '^' || m == '?'));
    }

    method ReadObject() returns (r: Option<TypeDesc>)
      modifies this
      ensures Follows(r, rest, DecodeObject(old(rest)))
      decreases |rest|, 6
    {
      hide DecodeField, DecodeFields, TakeNumber;
      ghost var text := rest;
      var n := Number(';', TWO_64);
      if n.None? { return None; }
      ghost var start := rest;
      var fields := [];
      PrependTwice([], [], DecodeFields(n.value, start));
      for i := 0 to n.value
        invariant |rest| <= |start| < |text| && |fields| == i
        invariant DecodeFields(n.value, start) == Prepend(fields, DecodeFields(n.value - i, rest))
      {
        FieldsStep(n.value - i, rest);
        var f := ReadField();
        if f.None? { return None; }
        PrependTwice(fields, [f.value], DecodeFields(n.value - i - 1, rest));
        fields := fields + [f.value];
      }
      FieldsDone(rest);
      assert fields + [] == fields;
      r := Some(Object(fields));
    }
  }

  lemma AllDone(s: string)
    ensures DecodeAll(0, s) == Done([], s)
  {
  }

  lemma FieldsDone(s: string)
    ensures DecodeFields(0, s) == Done([], s)
  {
  }

  /** Writing a descriptor and reading the text back gives it again, when its names are clean. */
  method WriteThenRead(t: TypeDesc) returns (r: Option<TypeDesc>)
    requires Sized(t)
    ensures r == Some(t) <==> Clean(t)
  {
    hide DecodeOne, Encode, Clean, Sized;
    var w := new Writer();
    w.EncodeInto(t);
    assert "" + Encode(t) == Encode(t);
    var reader := new Reader(w.out);
    r := reader.ReadOne();
    if r.Some? && reader.rest != "" { r := None; }
    SurvivesIffClean(t);
  }

  lemma EncodeAllEmpty()
    ensures forall ts: seq<TypeDesc> :: EncodeAll(ts[..0]) == ""
  {
  }

  lemma EncodeFieldsEmpty()
    ensures forall fs: seq<FieldDesc> :: EncodeFields(fs[..0]) == ""
  {
  }

  lemma ArgsText(before: string, t: TypeDesc)
    requires t.Args?
    ensures before + "A" + (Digits(|t.fixed|) + ";" + EncodeAll(t.fixed)) + ArgsTail(t.rest) == before + Encode(t)
  {
    hide EncodeAll, Digits;
    var d, els, tail := Digits(|t.fixed|), EncodeAll(t.fixed), ArgsTail(t.rest);
    assert before + "A" + (d + ";" + els) + tail == before + ("A" + (d + ";" + (els + tail)));
  }

  lemma ObjectText(before: string, t: TypeDesc)
    requires t.Object?
    ensures before + ("O" + (Digits(|t.fields|) + ";")) + EncodeFields(t.fields) == before + Encode(t)
  {
    hide EncodeFields, Digits;
    var d, fs := Digits(|t.fields|), EncodeFields(t.fields);
    assert before + ("O" + (d + ";")) + fs == before + ("O" + (d + ";" + fs));
  }

  lemma FieldText(before: string, f: FieldDesc)
    ensures before + Digits(ByteLen(f.name)) + ":" + f.name + [Marker(f.optional, f.readonly)] + Encode(f.ty)
         == before + EncodeField(f)
  {
    hide Encode, Digits, ByteLen;
    var d, m := Digits(ByteLen(f.name)), [Marker(f.optional, f.readonly)];
    assert before + d + ":" + f.name + m + Encode(f.ty) == before + (d + ":" + (f.name + (m + Encode(f.ty))));
  }
}
