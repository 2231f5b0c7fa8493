/** The encoding half of the codec: `OSC.encoding_directive` (all branches
    except Time), `Message#encode` and `Bundle#encode`. Every field is padded
    with NUL bytes to a multiple of four, so every encoding is aligned. */
module OscEncode {
  import opened Bytes
  import opened OscValues

  const Comma: byte := 44      // ','
  const TagInt: byte := 105    // 'i'
  const TagFloat: byte := 102  // 'f'
  const TagString: byte := 115 // 's'
  const TagBlob: byte := 98    // 'b'

  /** `#bundle` followed by a NUL byte. */
  const BundleHeader: Bytes := [35, 98, 117, 110, 100, 108, 101, 0]

  /** The timetag bytes written for a `nil` timetag. */
  const ImmediateBytes: Bytes := [0, 0, 0, 0, 0, 0, 0, 1]

  /** The type tag `OSC.encoding_directive` picks for an argument. */
  function Tag(a: Arg): byte
  {
    match a
    case Int(_) => TagInt
    case Float(_) => TagFloat
    case Str(_) => TagString
    case Blob(_) => TagBlob
  }

  /** A string field, `Z*` then `x` padding: the bytes, a NUL terminator and
      NULs up to the next multiple of four. */
  function EncodeString(s: Bytes): (r: Bytes)
    ensures |r| % 4 == 0
    ensures |s| < |r| <= |s| + 4
    ensures r[..|s|] == s
    ensures forall i :: |s| <= i < |r| ==> r[i] == 0
  {
    s + [0] + Zeros(PaddingSize(|s| + 1))
  }

  /** The payload of one argument, laid out as `OSC.encoding_directive`
      says: `N` for an Int (low 32 bits), the raw four bytes for a Float,
      a string field for a Str, and for a Blob a length word, the data and
      padding computed on `length + 4`. */
  function EncodeArg(a: Arg): (r: Bytes)
    ensures |r| % 4 == 0
    ensures a.Int? ==> |r| == 4 && WordValue(r) == a.i % WordRange
    ensures a.Float? ==> r == a.bits
    ensures a.Str? ==> r == EncodeString(a.s)
    ensures a.Blob? ==> 4 + |a.data| <= |r| < 8 + |a.data|
    ensures a.Blob? ==> WordValue(r[..4]) == |a.data| % WordRange
    ensures a.Blob? ==> r[4..4 + |a.data|] == a.data
    ensures a.Blob? ==> forall i :: 4 + |a.data| <= i < |r| ==> r[i] == 0
  {
    match a
    case Int(i) => WordBytes(i % WordRange)
    case Float(bits) => bits
    case Str(s) => EncodeString(s)
    case Blob(d) =>
      var r := WordBytes(|d| % WordRange) + d + Zeros(PaddingSize(|d| + 4));
      assert r[..4] == WordBytes(|d| % WordRange);
      assert r[4..4 + |d|] == d;
      r
  }

  /** The tag characters of the arguments, in order. */
  function Tags(args: seq<Arg>): (r: Bytes)
    ensures |r| == |args|
    ensures forall i :: 0 <= i < |args| ==> r[i] == Tag(args[i])
  {
    if args == [] then [] else [Tag(args[0])] + Tags(args[1..])
  }

  /** The argument payloads, concatenated in order. */
  function Payloads(args: seq<Arg>): (r: Bytes)
    ensures |r| % 4 == 0
  {
    if args == [] then []
    else
      var rest := Payloads(args[1..]);
      AlignedConcat(EncodeArg(args[0]), rest);
      EncodeArg(args[0]) + rest
  }

  /** The address field: `encoding_directive` of the address, a string
      field for a String and the blob layout for a Blob. */
  function EncodeAddress(m: Message): (r: Bytes)
    ensures |r| % 4 == 0
    ensures !m.blobAddress ==> r == EncodeString(m.address)
    ensures m.blobAddress ==> var a := m.address;
              && 4 + |a| <= |r| < 8 + |a|
              && WordValue(r[..4]) == |a| % WordRange
              && r[4..4 + |a|] == a
              && forall i :: 4 + |a| <= i < |r| ==> r[i] == 0
  {
    if m.blobAddress then EncodeArg(Blob(m.address)) else EncodeString(m.address)
  }

  /** `Message#encode`: the address, the type-tag string `,` + tags, then
      the payloads. */
  function EncodeMessage(m: Message): (r: Bytes)
    ensures |r| % 4 == 0
  {
    var a, t, p := EncodeAddress(m), EncodeString([Comma] + Tags(m.args)), Payloads(m.args);
    AlignedConcat(a, t);
    AlignedConcat(a + t, p);
    a + t + p
  }

  /** An encoded message opens with its address field. */
  lemma MessageOpensWithAddress(m: Message)
    ensures |EncodeAddress(m)| <= |EncodeMessage(m)|
    ensures EncodeMessage(m)[..|EncodeAddress(m)|] == EncodeAddress(m)
  {
    var a, t, p := EncodeAddress(m), EncodeString([Comma] + Tags(m.args)), Payloads(m.args);
    assert EncodeMessage(m) == a + t + p;
    assert (a + t + p)[..|a|] == a;
  }

  /** The eight timetag bytes of a bundle: two big-endian words, or the
      sentinel 0x00000000 0x00000001 for `nil`. */
  function EncodeTimetag(tt: Option<NtpTime>): (r: Bytes)
    ensures |r| == 8
    ensures tt.None? ==> WordValue(r[..4]) == 0 && WordValue(r[4..]) == 1
    ensures tt.Some? ==> WordValue(r[..4]) == tt.value.seconds && WordValue(r[4..]) == tt.value.fraction
  {
    match tt
    case None => ImmediateBytes
    case Some(t) =>
      var r := WordBytes(t.seconds) + WordBytes(t.fraction);
      assert r[..4] == WordBytes(t.seconds) && r[4..] == WordBytes(t.fraction);
      r
  }

  /** `Bundle#encode`: the header, the timetag, then each element framed by
      its length as a big-endian word. */
  function EncodeBundle(b: Bundle): (r: Bytes)
    ensures |r| % 4 == 0
    ensures |r| >= 16 && r[..8] == BundleHeader && r[8..16] == EncodeTimetag(b.timetag)
    decreases b, 1
  {
    var head := BundleHeader + EncodeTimetag(b.timetag);
    var body := EncodeElements(b.elements);
    AlignedConcat(head, body);
    assert (head + body)[..8] == BundleHeader && (head + body)[8..16] == EncodeTimetag(b.timetag);
    head + body
  }

  /** The framed elements of a bundle, in order. */
  function EncodeElements(es: seq<Packet>): (r: Bytes)
    ensures |r| % 4 == 0
    decreases es, 0
  {
    if es == [] then []
    else
      var x := EncodePacket(es[0]);
      var rest := EncodeElements(es[1..]);
      AlignedConcat(WordBytes(|x| % WordRange), x);
      AlignedConcat(WordBytes(|x| % WordRange) + x, rest);
      WordBytes(|x| % WordRange) + x + rest
  }

  function EncodePacket(p: Packet): (r: Bytes)
    ensures |r| % 4 == 0
    decreases p, 2
  {
    match p
    case Msg(m) => EncodeMessage(m)
    case Bnd(b) => EncodeBundle(b)
  }
}
