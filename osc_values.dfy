/** The values the OSC library works with: message arguments, messages,
    bundles with their timetag, and the errors its operations raise.
    Also the checks `Message.new` / `Bundle.new` perform on their inputs,
    `OSC.coerce_argument`, `Message#to_a` and the two `==` methods. */
module OscValues {
  import opened Bytes

  /** The Ruby exception classes that the modelled code can raise. */
  datatype Error =
    | TypeError       // a rejected constructor input, or `Blob.new(nil)`
    | NoMethodError   // a method called on `nil` after a failed scan, or `address` on a Bundle
    | RangeError      // `StringScanner#pos=` past the end of the input
    | NameError       // the unknown-tag branch, which names an undefined variable `t`
    | ArgumentError   // `add_pattern` without a block

  datatype Result<+T> = Ok(value: T) | Err(error: Error)

  /** Four raw bytes: a 32-bit float kept as its big-endian bit pattern. */
  type Word = w: Bytes | |w| == 4 witness [0, 0, 0, 0]

  /** A message argument after coercion. `Int` holds any Fixnum: `pack('N')`
      keeps its low 32 bits. `Str` and `Blob` are both Ruby strings; they
      differ only in the layout `OSC.encoding_directive` chooses. */
  datatype Arg =
    | Int(i: int)
    | Float(bits: Word)
    | Str(s: Bytes)
    | Blob(data: Bytes)

  /** A timetag as its two NTP words: seconds since 1900 and the binary
      fraction of a second. */
  datatype NtpTime = NtpTime(seconds: u32, fraction: u32)

  /** A message. `Message.new` accepts a Blob as the address (a Blob is a
      String) and keeps it as a Blob, which `encode` and `to_a` then treat
      as one; `blobAddress` records that. */
  datatype Message = Message(address: Bytes, args: seq<Arg>, blobAddress: bool)

  /** A bundle; a `None` timetag is Ruby's `nil` ("immediately"). */
  datatype Bundle = Bundle(timetag: Option<NtpTime>, elements: seq<Packet>)

  /** What `OSC.decode` returns, and what a bundle may contain. */
  datatype Packet = Msg(message: Message) | Bnd(bundle: Bundle)

  datatype Option<+T> = None | Some(value: T)

  /** Ruby values a caller may hand to `Message.new` or `Bundle.new`. */
  datatype RubyValue =
    | RInteger(n: int)
    | RFloat(bits: Word)
    | RString(s: Bytes)
    | RBlob(data: Bytes)
    | RSymbol(name: Bytes)
    | RTime(t: NtpTime)
    | RNil
    | ROther

  /** An argument of `Bundle.new`: an OSC object or some other value. */
  datatype BundleItem = Item(p: Packet) | NotPacket(v: RubyValue)

  /** Range of a Fixnum on 64-bit MRI; larger integers are Bignums, which
      `coerce_argument` does not accept. */
  const FixnumMin: int := -0x4000_0000_0000_0000
  const FixnumMax: int := 0x3FFF_FFFF_FFFF_FFFF

  /** `OSC.coerce_argument`: symbols become strings, strings, blobs, floats
      and Fixnums pass unchanged, everything else is a TypeError. */
  function CoerceArgument(v: RubyValue): (r: Result<Arg>)
    ensures r.Ok? <==> (v.RString? || v.RBlob? || v.RFloat? || v.RSymbol?
                        || (v.RInteger? && FixnumMin <= v.n <= FixnumMax))
    ensures r.Err? ==> r.error == TypeError
    ensures v.RSymbol? ==> r == Ok(Str(v.name))
    ensures v.RString? ==> r == Ok(Str(v.s))
    ensures v.RBlob? ==> r == Ok(Blob(v.data))
    ensures v.RFloat? ==> r == Ok(Float(v.bits))
    ensures r.Ok? && v.RInteger? ==> r.value == Int(v.n)
  {
    match v
    case RSymbol(name) => Ok(Str(name))
    case RString(s) => Ok(Str(s))
    case RBlob(d) => Ok(Blob(d))
    case RFloat(b) => Ok(Float(b))
    case RInteger(n) => if FixnumMin <= n <= FixnumMax then Ok(Int(n)) else Err(TypeError)
    case _ => Err(TypeError)
  }

  /** Coerces every argument in order; the first rejected one raises. */
  function CoerceAll(vs: seq<RubyValue>): (r: Result<seq<Arg>>)
    ensures r.Ok? <==> forall i :: 0 <= i < |vs| ==> CoerceArgument(vs[i]).Ok?
    ensures r.Ok? ==> |r.value| == |vs|
    ensures r.Ok? ==> forall i :: 0 <= i < |vs| ==> r.value[i] == CoerceArgument(vs[i]).value
    ensures r.Err? ==> r.error == TypeError
  {
    if vs == [] then Ok([])
    else
      match CoerceArgument(vs[0])
      case Err(e) => Err(e)
      case Ok(a) =>
        match CoerceAll(vs[1..])
        case Err(e) => Err(e)
        case Ok(rest) => Ok([a] + rest)
  }

  /** `Message.new(address, *args)`: the arguments are coerced, then the
      address must be a String (a Blob is a String too). */
  function NewMessage(address: RubyValue, args: seq<RubyValue>): (r: Result<Message>)
    ensures r.Ok? <==> CoerceAll(args).Ok? && (address.RString? || address.RBlob?)
    ensures r.Err? ==> r.error == TypeError
    ensures r.Ok? ==> r.value.args == CoerceAll(args).value
    ensures r.Ok? && address.RString? ==> r.value.address == address.s
    ensures r.Ok? && address.RBlob? ==> r.value.address == address.data
    ensures r.Ok? ==> (r.value.blobAddress <==> address.RBlob?)
  {
    match CoerceAll(args)
    case Err(e) => Err(e)
    case Ok(coerced) =>
      match address
      case RString(s) => Ok(Message(s, coerced, false))
      case RBlob(d) => Ok(Message(d, coerced, true))
      case _ => Err(TypeError)
  }

  /** True when every item handed to `Bundle.new` is a Message or a Bundle. */
  predicate AllPackets(items: seq<BundleItem>)
  {
    forall i :: 0 <= i < |items| ==> items[i].Item?
  }

  /** `Bundle.new(timetag, *args)`: every argument must be a Message or a
      Bundle, and the timetag a Time or nil. */
  function NewBundle(timetag: RubyValue, items: seq<BundleItem>): (r: Result<Bundle>)
    ensures r.Ok? <==> AllPackets(items) && (timetag.RNil? || timetag.RTime?)
    ensures r.Err? ==> r.error == TypeError
    ensures r.Ok? ==> |r.value.elements| == |items|
    ensures r.Ok? ==> forall i :: 0 <= i < |items| ==> r.value.elements[i] == items[i].p
    ensures r.Ok? ==> (r.value.timetag.None? <==> timetag.RNil?)
    ensures r.Ok? && timetag.RTime? ==> r.value.timetag == Some(timetag.t)
  {
    if !AllPackets(items) then Err(TypeError)
    else
      var elements := seq(|items|, i requires 0 <= i < |items| => items[i].p);
      match timetag
      case RNil => Ok(Bundle(None, elements))
      case RTime(t) => Ok(Bundle(Some(t), elements))
      case _ => Err(TypeError)
  }

  /** `Message#to_a`: the address followed by the arguments; this is also
      what a handler block is called with. */
  function ToA(m: Message): (r: seq<Arg>)
    ensures |r| == |m.args| + 1
    ensures r[0] == (if m.blobAddress then Blob(m.address) else Str(m.address))
    ensures r[1..] == m.args
  {
    [if m.blobAddress then Blob(m.address) else Str(m.address)] + m.args
  }

  /** Ruby `==` between two arguments: a Blob is a String subclass and
      `String#==` compares contents only, so a blob equals a string with the
      same bytes. */
  predicate ArgEquals(a: Arg, b: Arg)
  {
    match (a, b)
    case (Int(x), Int(y)) => x == y
    case (Float(x), Float(y)) => x == y
    case (Str(x), Str(y)) => x == y
    case (Str(x), Blob(y)) => x == y
    case (Blob(x), Str(y)) => x == y
    case (Blob(x), Blob(y)) => x == y
    case _ => false
  }

  /** Element-wise `==` of two argument arrays. */
  predicate ArgsEqual(xs: seq<Arg>, ys: seq<Arg>)
  {
    |xs| == |ys| && forall i :: 0 <= i < |xs| ==> ArgEquals(xs[i], ys[i])
  }

  /** `Message#==`: same class and equal `to_a`. */
  predicate MessageEquals(m: Message, n: Message)
  {
    ArgsEqual(ToA(m), ToA(n))
  }

  /** `Bundle#==`: same class, same timetag and element-wise equal contents. */
  predicate BundleEquals(b: Bundle, c: Bundle)
    decreases b, 1
  {
    b.timetag == c.timetag && ElementsEqual(b.elements, c.elements)
  }

  predicate ElementsEqual(xs: seq<Packet>, ys: seq<Packet>)
    decreases xs, 0
  {
    |xs| == |ys| && (xs == [] || (PacketEquals(xs[0], ys[0]) && ElementsEqual(xs[1..], ys[1..])))
  }

  /** `==` on the members of a bundle: a Message never equals a Bundle. */
  predicate PacketEquals(p: Packet, q: Packet)
    decreases p, 2
  {
    match (p, q)
    case (Msg(m), Msg(n)) => MessageEquals(m, n)
    case (Bnd(b), Bnd(c)) => BundleEquals(b, c)
    case _ => false
  }

  /** Forgets the string/blob distinction, which `==` does not see. */
  function Plain(a: Arg): (r: Arg)
    ensures !r.Blob?
  {
    if a.Blob? then Str(a.data) else a
  }

  function PlainMessage(m: Message): (r: Message)
    ensures |r.args| == |m.args|
  {
    Message(m.address, seq(|m.args|, i requires 0 <= i < |m.args| => Plain(m.args[i])), false)
  }

  /** `Message#==` holds exactly when the messages agree once blobs are read
      as strings. */
  lemma MessageEqualsIffPlainEqual(m: Message, n: Message)
    ensures MessageEquals(m, n) <==> PlainMessage(m) == PlainMessage(n)
  {
    var pm, pn := PlainMessage(m), PlainMessage(n);
    forall i | 0 <= i < |m.args| && i < |n.args|
      ensures ArgEquals(m.args[i], n.args[i]) <==> pm.args[i] == pn.args[i]
    {
    }
    if MessageEquals(m, n) {
      assert ArgEquals(ToA(m)[0], ToA(n)[0]);
      forall i | 0 <= i < |m.args| ensures pm.args[i] == pn.args[i] {
        assert ToA(m)[i + 1] == m.args[i] && ToA(n)[i + 1] == n.args[i];
        assert ArgEquals(ToA(m)[i + 1], ToA(n)[i + 1]);
      }
      assert pm.args == pn.args;
    }
    if pm == pn {
      forall i | 0 <= i < |ToA(m)| ensures ArgEquals(ToA(m)[i], ToA(n)[i]) {
        if i > 0 {
          assert ToA(m)[i] == m.args[i - 1] && ToA(n)[i] == n.args[i - 1];
          assert pm.args[i - 1] == pn.args[i - 1];
        }
      }
    }
  }

  /** Bundle `==` is reflexive, through every level of nesting. */
  lemma {:induction false} BundleEqualsReflexive(b: Bundle)
    ensures BundleEquals(b, b)
    decreases b, 1
  {
    ElementsEqualReflexive(b.elements);
  }

  lemma {:induction false} ElementsEqualReflexive(xs: seq<Packet>)
    ensures ElementsEqual(xs, xs)
    decreases xs, 0
  {
    if xs != [] {
      PacketEqualsReflexive(xs[0]);
      ElementsEqualReflexive(xs[1..]);
    }
  }

  lemma {:induction false} PacketEqualsReflexive(p: Packet)
    ensures PacketEquals(p, p)
    decreases p, 2
  {
    match p
    case Msg(m) =>
      forall i | 0 <= i < |ToA(m)| ensures ArgEquals(ToA(m)[i], ToA(m)[i]) { }
    case Bnd(b) =>
      BundleEqualsReflexive(b);
  }

  /** A bundle with every message in it, at every level, made plain. */
  function PlainBundle(b: Bundle): (r: Bundle)
    ensures r.timetag == b.timetag && |r.elements| == |b.elements|
    decreases b, 1
  {
    Bundle(b.timetag, PlainElements(b.elements))
  }

  function PlainElements(xs: seq<Packet>): (r: seq<Packet>)
    ensures |r| == |xs|
    decreases xs, 0
  {
    if xs == [] then [] else [PlainPacket(xs[0])] + PlainElements(xs[1..])
  }

  function PlainPacket(p: Packet): (r: Packet)
    ensures r.Msg? <==> p.Msg?
    decreases p, 2
  {
    match p
    case Msg(m) => Msg(PlainMessage(m))
    case Bnd(b) => Bnd(PlainBundle(b))
  }

  /** `Bundle#==` holds exactly when the bundles have the same timetag and
      their contents agree, element by element and at every level, once
      blobs are read as strings. */
  lemma {:induction false} BundleEqualsIffPlainEqual(b: Bundle, c: Bundle)
    ensures BundleEquals(b, c) <==> PlainBundle(b) == PlainBundle(c)
    decreases b, 1
  {
    ElementsEqualIffPlainEqual(b.elements, c.elements);
  }

  lemma {:induction false} ElementsEqualIffPlainEqual(xs: seq<Packet>, ys: seq<Packet>)
    ensures ElementsEqual(xs, ys) <==> PlainElements(xs) == PlainElements(ys)
    decreases xs, 0
  {
    if xs != [] && ys != [] {
      PacketEqualsIffPlainEqual(xs[0], ys[0]);
      ElementsEqualIffPlainEqual(xs[1..], ys[1..]);
      var px, py := PlainElements(xs), PlainElements(ys);
      assert px == [PlainPacket(xs[0])] + PlainElements(xs[1..]);
      assert py == [PlainPacket(ys[0])] + PlainElements(ys[1..]);
      if px == py {
        assert px[0] == py[0] && px[1..] == py[1..];
      }
    }
  }

  /** `==` on bundle members: a Message never equals a Bundle, and two of a
      kind are equal exactly when their plain forms are. */
  lemma {:induction false} PacketEqualsIffPlainEqual(p: Packet, q: Packet)
    ensures PacketEquals(p, q) <==> PlainPacket(p) == PlainPacket(q)
    decreases p, 2
  {
    match (p, q)
    case (Msg(m), Msg(n)) => MessageEqualsIffPlainEqual(m, n);
    case (Bnd(b), Bnd(c)) => BundleEqualsIffPlainEqual(b, c);
    case _ =>
  }
}
