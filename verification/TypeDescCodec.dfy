/**
  * The prefix code of runtime type descriptors (type_desc.rs and its literal.rs):
  * writing a descriptor and reading one back off the front of a text.
  */
module TypeDescCodec {
  import opened Wrappers
  import opened NumberText

  datatype TypeLiteral = IntLit(n: I64) | StrLit(s: string) | BoolLit(b: bool) | CharLit(c: char)

  datatype FieldDesc = FieldDesc(name: string, ty: TypeDesc, optional: bool, readonly: bool)

  datatype TypeDesc =
    | Any | Int | Float | Bool | Char | Str | Bytes | Decimal | BigInt | Callable
    | Literal(value: TypeLiteral)
    | Array(el: TypeDesc)
    | Set(el: TypeDesc)
    | Dict(el: TypeDesc)
    | Nullable(el: TypeDesc)
    | Map(key: TypeDesc, val: TypeDesc)
    | Tuple(els: seq<TypeDesc>)
    | Class(slot: U32, name: string)
    | Enum(slot: U32, name: string)
    | Enclosing(up: U32, name: string)
    | Args(fixed: seq<TypeDesc>, rest: Option<TypeDesc>)
    | Object(fields: seq<FieldDesc>)

  // --- text measured in bytes -----------------------------------------------------

  /** The bytes a character takes in UTF-8. */
  function Utf8Len(c: char): nat {
    var n := c as int;
    if n < 0x80 then 1 else if n < 0x800 then 2 else if n < 0x1_0000 then 3 else 4
  }

  function ByteLen(s: string): nat {
    if s == "" then 0 else Utf8Len(s[0]) + ByteLen(s[1..])
  }

  datatype Parse<+T> = Fail | Done(value: T, rest: string)

  /** The head before the first `stop`, and what follows it. */
  function TakeUntil(s: string, stop: char): (r: Parse<string>)
    ensures r.Done? ==> stop !in r.value && s == r.value + [stop] + r.rest
  {
    if s == "" then Fail
    else if s[0] == stop then Done("", s[1..])
    else
      var t := TakeUntil(s[1..], stop);
      if t.Done? then Done([s[0]] + t.value, t.rest) else Fail
  }

  /** The first `n` bytes, if they end between two characters. */
  function TakeBytes(s: string, n: nat): (r: Parse<string>)
    ensures r.Done? ==> s == r.value + r.rest && ByteLen(r.value) == n
  {
    if n == 0 then Done("", s)
    else if s == "" || Utf8Len(s[0]) > n then Fail
    else
      var t := TakeBytes(s[1..], n - Utf8Len(s[0]));
      if t.Done? then Done([s[0]] + t.value, t.rest) else Fail
  }

  function TakeNumber(s: string, stop: char, limit: nat): (r: Parse<nat>)
    ensures r.Done? ==> r.value < limit && |r.rest| < |s|
  {
    var t := TakeUntil(s, stop);
    if t.Fail? then Fail
    else
      var n := ParseUnsigned(t.value, limit);
      if n.Some? then Done(n.value, t.rest) else Fail
  }

  // --- writing ------------------------------------------------------------------------

  function LeafTag(t: TypeDesc): Option<char> {
    match t
    case Any => Some('*')
    case Int => Some('i')
    case Float => Some('f')
    case Bool => Some('b')
    case Char => Some('c')
    case Str => Some('s')
    case Bytes => Some('y')
    case Decimal => Some('d')
    case BigInt => Some('g')
    case Callable => Some('F')
    case _ => None
  }

  function EncodeLiteral(v: TypeLiteral): string {
    match v
    case IntLit(n) => "i" + (IntText(n) + ";")
    case StrLit(s) => "s" + (Digits(ByteLen(s)) + ":" + s)
    case BoolLit(b) => if b then "t" else "f"
    case CharLit(c) => "c" + [c]
  }

  function Named(n: nat, name: string): string {
    Digits(n) + ":" + (name + ";")
  }

  function Marker(optional: bool, readonly: bool): char {
    if optional then (if readonly then '?' else '~') else if readonly then '^' else '!'
  }

  function Encode(t: TypeDesc): string
    decreases t
  {
    if LeafTag(t).Some? then [LeafTag(t).value]
    else match t
      case Literal(v) => "L" + EncodeLiteral(v)
      case Array(el) => "[" + Encode(el)
      case Set(el) => "Z" + Encode(el)
      case Dict(el) => "D" + Encode(el)
      case Nullable(el) => "?" + Encode(el)
      case Map(k, v) => "M" + (Encode(k) + Encode(v))
      case Tuple(els) => "T" + (Digits(|els|) + ";" + EncodeAll(els))
      case Class(w, name) => "C" + Named(w, name)
      case Enum(w, name) => "E" + Named(w, name)
      case Enclosing(up, name) => "R" + Named(up, name)
      case Args(fixed, rest) =>
        "A" + (Digits(|fixed|) + ";" + (EncodeAll(fixed) + (if rest.Some? then "+" + Encode(rest.value) else ".")))
      case Object(fields) => "O" + (Digits(|fields|) + ";" + EncodeFields(fields))
  }

  function EncodeAll(ts: seq<TypeDesc>): string
    decreases ts
  {
    if ts == [] then "" else Encode(ts[0]) + EncodeAll(ts[1..])
  }

  function EncodeField(f: FieldDesc): string
    decreases f
  {
    Digits(ByteLen(f.name)) + ":" + (f.name + ([Marker(f.optional, f.readonly)] + Encode(f.ty)))
  }

  function EncodeFields(fs: seq<FieldDesc>): string
    decreases fs
  {
    if fs == [] then "" else EncodeField(fs[0]) + EncodeFields(fs[1..])
  }

  // --- reading --------------------------------------------------------------------------

  function LeafOf(c: char): Option<TypeDesc> {
    match c
    case '*' => Some(Any)
    case 'i' => Some(Int)
    case 'f' => Some(Float)
    case 'b' => Some(Bool)
    case 'c' => Some(Char)
    case 's' => Some(Str)
    case 'y' => Some(Bytes)
    case 'd' => Some(Decimal)
    case 'g' => Some(BigInt)
    case 'F' => Some(Callable)
    case _ => None
  }

  function WrapperOf(c: char, el: TypeDesc): Option<TypeDesc> {
    match c
    case '[' => Some(Array(el))
    case 'Z' => Some(Set(el))
    case 'D' => Some(Dict(el))
    case '?' => Some(Nullable(el))
    case _ => None
  }

  predicate WrapperTag(c: char) {
    c == '[' || c == 'Z' || c == 'D' || c == '?'
  }

  function NamedOf(c: char, n: U32, name: string): TypeDesc {
    if c == 'C' then Class(n, name) else if c == 'E' then Enum(n, name) else Enclosing(n, name)
  }

  predicate NamedTag(c: char) {
    c == 'C' || c == 'E' || c == 'R'
  }

  function DecodeLiteral(s: string): (r: Parse<TypeLiteral>)
    ensures r.Done? ==> |r.rest| < |s|
  {
    if s == "" then Fail
    else if s[0] == 'i' then
      var t := TakeUntil(s[1..], ';');
      if t.Fail? then Fail
      else
        var n := ParseI64(t.value);
        if n.Some? then Done(IntLit(n.value), t.rest) else Fail
    else if s[0] == 's' then
      var n := TakeNumber(s[1..], ':', TWO_64);
      if n.Fail? then Fail
      else
        var t := TakeBytes(n.rest, n.value);
        if t.Done? then Done(StrLit(t.value), t.rest) else Fail
    else if s[0] == 't' then Done(BoolLit(true), s[1..])
    else if s[0] == 'f' then Done(BoolLit(false), s[1..])
    else if s[0] == 'c' && |s| > 1 then Done(CharLit(s[1]), s[2..])
    else Fail
  }

  function DecodeNamed(c: char, s: string): (r: Parse<TypeDesc>)
    ensures r.Done? ==> |r.rest| <= |s|
  {
    var n := TakeNumber(s, ':', TWO_32);
    if n.Fail? then Fail
    else
      var t := TakeUntil(n.rest, ';');
      if t.Done? then Done(NamedOf(c, n.value, t.value), t.rest) else Fail
  }

  function DecodeOne(s: string): (r: Parse<TypeDesc>)
    ensures r.Done? ==> |r.rest| < |s|
    decreases |s|, 3
  {
    if s == "" then Fail
    else
      var c, s' := s[0], s[1..];
      if LeafOf(c).Some? then Done(LeafOf(c).value, s')
      else if WrapperTag(c) then
        var el := DecodeOne(s');
        if el.Done? then Done(WrapperOf(c, el.value).value, el.rest) else Fail
      else if NamedTag(c) then DecodeNamed(c, s')
      else if c == 'L' then
        var v := DecodeLiteral(s');
        if v.Done? then Done(Literal(v.value), v.rest) else Fail
      else if c == 'M' then DecodeMap(s')
      else if c == 'T' then
        var els := DecodeCounted(s');
        if els.Done? then Done(Tuple(els.value), els.rest) else Fail
      else if c == 'A' then DecodeArgs(s')
      else if c == 'O' then DecodeObject(s')
      else Fail
  }

  function DecodeMap(s: string): (r: Parse<TypeDesc>)
    ensures r.Done? ==> |r.rest| < |s|
    decreases |s|, 4
  {
    var k := DecodeOne(s);
    if k.Fail? then Fail
    else
      var v := DecodeOne(k.rest);
      if v.Done? then Done(Map(k.value, v.value), v.rest) else Fail
  }

  function DecodeCounted(s: string): (r: Parse<seq<TypeDesc>>)
    ensures r.Done? ==> |r.rest| <= |s|
    decreases |s|, 5
  {
    var n := TakeNumber(s, ';', TWO_64);
    if n.Fail? then Fail else DecodeAll(n.value, n.rest)
  }

  function DecodeAll(n: nat, s: string): (r: Parse<seq<TypeDesc>>)
    ensures r.Done? ==> |r.rest| <= |s| && |r.value| == n
    decreases |s|, 4
  {
    if n == 0 then Done([], s)
    else
      var t := DecodeOne(s);
      if t.Fail? then Fail
      else
        var ts := DecodeAll(n - 1, t.rest);
        if ts.Done? then Done([t.value] + ts.value, ts.rest) else Fail
  }

  function DecodeArgs(s: string): (r: Parse<TypeDesc>)
    ensures r.Done? ==> |r.rest| <= |s|
    decreases |s|, 6
  {
    var fixed := DecodeCounted(s);
    if fixed.Fail? || fixed.rest == "" then Fail
    else if fixed.rest[0] == '.' then Done(Args(fixed.value, None), fixed.rest[1..])
    else if fixed.rest[0] == '+' then
      var t := DecodeOne(fixed.rest[1..]);
      if t.Done? then Done(Args(fixed.value, Some(t.value)), t.rest) else Fail
    else Fail
  }

  function DecodeField(s: string): (r: Parse<FieldDesc>)
    ensures r.Done? ==> |r.rest| < |s|
    decreases |s|, 4
  {
    var n := TakeNumber(s, ':', TWO_64);
    if n.Fail? then Fail
    else
      var name := TakeBytes(n.rest, n.value);
      if name.Fail? || name.rest == "" then Fail
      else
        var m := name.rest[0];
        if m != '~' && m != '?' && m != '!' && m != '^' then Fail
        else
          var ty := DecodeOne(name.rest[1..]);
          if ty.Done? then
            Done(FieldDesc(name.value, ty.value, m == '~' || m == '?', m == '^' || m == '?'), ty.rest)
          else Fail
  }

  function DecodeFields(n: nat, s: string): (r: Parse<seq<FieldDesc>>)
    ensures r.Done? ==> |r.rest| <= |s| && |r.value| == n
    decreases |s|, 5
  {
    if n == 0 then Done([], s)
    else
      var f := DecodeField(s);
      if f.Fail? then Fail
      else
        var fs := DecodeFields(n - 1, f.rest);
        if fs.Done? then Done([f.value] + fs.value, fs.rest) else Fail
  }

  function DecodeObject(s: string): (r: Parse<TypeDesc>)
    ensures r.Done? ==> |r.rest| <= |s|
    decreases |s|, 6
  {
    var n := TakeNumber(s, ';', TWO_64);
    if n.Fail? then Fail
    else
      var fs := DecodeFields(n.value, n.rest);
      if fs.Done? then Done(Object(fs.value), fs.rest) else Fail
  }

  function Decode(text: string): Option<TypeDesc> {
    var r := DecodeOne(text);
    if r.Done? && r.rest == "" then Some(r.value) else None
  }

  // --- which descriptors survive -----------------------------------------------------------

  /** No class, enum or enclosing name contains the terminator `;`. */
  predicate Clean(t: TypeDesc)
    decreases t
  {
    match t
    case Array(el) => Clean(el)
    case Set(el) => Clean(el)
    case Dict(el) => Clean(el)
    case Nullable(el) => Clean(el)
    case Map(k, v) => Clean(k) && Clean(v)
    case Tuple(els) => CleanAll(els)
    case Class(_, name) => ';' !in name
    case Enum(_, name) => ';' !in name
    case Enclosing(_, name) => ';' !in name
    case Args(fixed, rest) => CleanAll(fixed) && (rest.Some? ==> Clean(rest.value))
    case Object(fields) => CleanFields(fields)
    case _ => true
  }

  predicate CleanAll(ts: seq<TypeDesc>)
    decreases ts
  {
    ts != [] ==> Clean(ts[0]) && CleanAll(ts[1..])
  }

  predicate CleanField(f: FieldDesc)
    decreases f
  {
    Clean(f.ty)
  }

  predicate CleanFields(fs: seq<FieldDesc>)
    decreases fs
  {
    fs != [] ==> CleanField(fs[0]) && CleanFields(fs[1..])
  }

  /** Lengths fit the machine word that holds them, as those of Rust vectors and strings do. */
  predicate Sized(t: TypeDesc)
    decreases t
  {
    match t
    case Literal(v) => v.StrLit? ==> ByteLen(v.s) < TWO_64
    case Array(el) => Sized(el)
    case Set(el) => Sized(el)
    case Dict(el) => Sized(el)
    case Nullable(el) => Sized(el)
    case Map(k, v) => Sized(k) && Sized(v)
    case Tuple(els) => |els| < TWO_64 && SizedAll(els)
    case Args(fixed, rest) => |fixed| < TWO_64 && SizedAll(fixed) && (rest.Some? ==> Sized(rest.value))
    case Object(fields) => |fields| < TWO_64 && SizedFields(fields)
    case _ => true
  }

  predicate SizedAll(ts: seq<TypeDesc>)
    decreases ts
  {
    ts != [] ==> Sized(ts[0]) && SizedAll(ts[1..])
  }

  predicate SizedField(f: FieldDesc)
    decreases f
  {
    ByteLen(f.name) < TWO_64 && Sized(f.ty)
  }

  predicate SizedFields(fs: seq<FieldDesc>)
    decreases fs
  {
    fs != [] ==> SizedField(fs[0]) && SizedFields(fs[1..])
  }
}
