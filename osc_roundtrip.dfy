/** What the codec promises: decoding an encoding gives back the message or
    bundle that was encoded, the `nil` timetag sentinel, and the malformed
    inputs that decoding rejects. */
module OscRoundTrip {
  import opened Bytes
  import opened OscValues
  import opened OscEncode
  import opened OscDecode

  /** A message whose encoding decodes to itself: a non-empty, NUL-free
      String address (the decoder scans `[^\000]+\000`) and arguments the
      decoder can produce. */
  predicate WireMessage(m: Message)
  {
    0 < |m.address| && 0 !in m.address && !m.blobAddress
    && forall i :: 0 <= i < |m.args| ==> WireArg(m.args[i])
  }

  /** A packet whose encoding decodes to itself: messages as above whose
      address does not start with `#bundle` (`OSC.decode` would take them for
      bundles), bundles whose timetag is not the `nil` sentinel pair and
      whose elements each fit a length word. */
  predicate WirePacket(p: Packet)
    decreases p, 2
  {
    match p
    case Msg(m) => WireMessage(m) && !HasBundlePrefix(m.address)
    case Bnd(b) => WireBundle(b)
  }

  predicate WireBundle(b: Bundle)
    decreases b, 1
  {
    b.timetag != Some(NtpTime(0, 1)) && WireElements(b.elements)
  }

  predicate WireElements(es: seq<Packet>)
    decreases es, 0
  {
    es == [] || (WirePacket(es[0]) && |EncodePacket(es[0])| < WordRange && WireElements(es[1..]))
  }

  /** A string field reads back as the string, leaving what follows it. */
  lemma ReadEncodedString(x: Bytes, rest: Bytes)
    requires 0 < |x| && 0 !in x
    ensures ReadString(EncodeString(x) + rest) == Ok((x, rest))
  {
    var e := EncodeString(x);
    var s := e + rest;
    var n := NonNulPrefix(s);
    assert s[|x|] == 0;
    assert forall i :: 0 <= i < |x| ==> s[i] == x[i];
    assert n == |x|;
    assert |e| == |x| + 1 + PaddingSize(|x| + 1);
    assert s[..n] == x;
    assert s[|e|..] == rest;
  }

  /** One argument's payload reads back as that argument. */
  lemma ReadEncodedArg(a: Arg, tail: Bytes)
    requires WireArg(a)
    ensures ReadArg(Tag(a), EncodeArg(a) + tail) == Ok((a, tail))
  {
    var s := EncodeArg(a) + tail;
    match a
    case Int(i) =>
      assert s[..4] == EncodeArg(a) && s[4..] == tail;
      SignedOfTruncated(i);
    case Float(bits) =>
      assert s[..4] == bits && s[4..] == tail;
    case Str(x) =>
      ReadEncodedString(x, tail);
    case Blob(d) =>
      ReadEncodedBlob(d, tail);
  }

  lemma ReadEncodedBlob(d: Bytes, tail: Bytes)
    requires |d| < WordRange
    ensures ReadArg(TagBlob, EncodeArg(Blob(d)) + tail) == Ok((Blob(d), tail))
  {
    var w, z := WordBytes(|d|), Zeros(PaddingSize(|d| + 4));
    assert |d| % WordRange == |d|;
    assert EncodeArg(Blob(d)) == w + d + z;
    var s := w + d + (z + tail);
    ConcatAssociative(w + d, z, tail);
    assert EncodeArg(Blob(d)) + tail == s;
    ConcatParts(w, d, z + tail);
    assert s[..4] == w && WordValue(s[..4]) == |d|;
    assert s[4..4 + |d|] == d;
    var next := 4 + |d| + PaddingSize(|d| + 4);
    assert s[4 + |d|..] == z + tail;
    assert s[next..] == (z + tail)[|z|..] == tail;
  }

  /** The argument loop reads back the payloads of arguments it can produce. */
  lemma DecodeEncodedArgs(args: seq<Arg>, rest: Bytes)
    requires forall i :: 0 <= i < |args| ==> WireArg(args[i])
    ensures DecodeArgs(Tags(args), Payloads(args) + rest) == Ok(args)
  {
    DecodeArgsAfter(args, [], rest);
    assert Tags(args) + [] == Tags(args) && args + [] == args;
  }

  /** The argument loop reads one encoded argument and goes on with the
      next tag. */
  lemma DecodeArgsCons(a: Arg, tags: Bytes, tail: Bytes)
    requires WireArg(a)
    ensures DecodeArgs([Tag(a)] + tags, EncodeArg(a) + tail) == PrependAll([a], DecodeArgs(tags, tail))
  {
    ReadEncodedArg(a, tail);
    assert ([Tag(a)] + tags)[1..] == tags;
  }

  /** The tag string `,` + tags holds no NUL byte. */
  lemma TagStringNulFree(args: seq<Arg>)
    ensures 0 !in [Comma] + Tags(args)
  {
    var tags := [Comma] + Tags(args);
    forall i | 0 <= i < |tags| ensures tags[i] != 0 {
      if i > 0 { assert tags[i] == Tag(args[i - 1]); }
    }
  }

  /** The `,` that opens a tag string is not a word character: the argument
      loop skips it. */
  lemma SkipComma(tags: Bytes, s: Bytes)
    ensures DecodeArgs([Comma] + tags, s) == DecodeArgs(tags, s)
  {
    assert ([Comma] + tags)[1..] == tags;
  }

  /** After a readable address and tag string, `Message.decode` is the
      argument loop over what follows. */
  lemma DecodeMessageFields(address: Bytes, tags: Bytes, rest: Bytes)
    requires 0 < |address| && 0 !in address && 0 < |tags| && 0 !in tags
    ensures DecodeMessage(EncodeString(address) + EncodeString(tags) + rest)
            == match DecodeArgs(tags, rest)
               case Err(e) => Err(e)
               case Ok(args) => Ok(Message(address, args, false))
  {
    var t := EncodeString(tags);
    assert EncodeString(address) + t + rest == EncodeString(address) + (t + rest);
    ReadEncodedString(address, t + rest);
    ReadEncodedString(tags, rest);
  }

  /** Round trip of `Message#encode` and `Message.decode`. */
  lemma MessageRoundTrip(m: Message)
    requires WireMessage(m)
    ensures DecodeMessage(EncodeMessage(m)) == Ok(m)
  {
    var tags := [Comma] + Tags(m.args);
    TagStringNulFree(m.args);
    DecodeMessageFields(m.address, tags, Payloads(m.args));
    DecodeEncodedArgs(m.args, []);
    assert Payloads(m.args) + [] == Payloads(m.args);
    SkipComma(Tags(m.args), Payloads(m.args));
  }

  /** A message whose address does not start with `#bundle` is decoded on
      the Message path. */
  lemma MessageEncodingIsNotBundle(m: Message)
    requires 0 < |m.address| && 0 !in m.address && !m.blobAddress && !HasBundlePrefix(m.address)
    ensures !HasBundlePrefix(EncodeMessage(m))
  {
    var e := EncodeMessage(m);
    var a := EncodeString(m.address);
    assert e[..|a|] == a;
    if |m.address| >= 7 {
      assert e[..7] == m.address[..7];
    } else if |e| >= 7 {
      assert e[|m.address|] == a[|m.address|] == 0;
      assert BundleHeader[..7][|m.address|] != 0;
    }
  }

  /** A message whose address is a Blob shorter than 2^24 bytes does not
      decode: its encoding opens with the blob length word, whose first byte
      is NUL, so the address scan of `Message.decode` finds nothing and
      `nil.size` raises. */
  lemma BlobAddressNotDecodable(m: Message)
    requires m.blobAddress && |m.address| < 0x100_0000
    ensures DecodePacket(EncodeMessage(m)) == Err(NoMethodError)
  {
    BlobAddressOpensWithNul(m);
    NulFirstNotDecodable(EncodeMessage(m));
  }

  /** The blob length word of a short address opens the encoding with NUL. */
  lemma BlobAddressOpensWithNul(m: Message)
    requires m.blobAddress && |m.address| < 0x100_0000
    ensures |EncodeMessage(m)| > 0 && EncodeMessage(m)[0] == 0
  {
    var d := m.address;
    SmallWordValue(|d|);
    var w := WordBytes(|d|);
    assert w[0] == 0;
    var a := EncodeAddress(m);
    assert a == w + d + Zeros(PaddingSize(|d| + 4));
    assert a[0] == 0;
    var t, p := EncodeString([Comma] + Tags(m.args)), Payloads(m.args);
    assert EncodeMessage(m) == a + t + p;
    assert (a + t + p)[0] == a[0];
  }

  /** Input that opens with NUL is not a bundle, and its address scan fails. */
  lemma NulFirstNotDecodable(s: Bytes)
    requires |s| > 0 && s[0] == 0
    ensures DecodePacket(s) == Err(NoMethodError)
  {
    assert s[0] != BundleHeader[0];
    assert !HasBundlePrefix(s);
    assert ReadString(s) == Err(NoMethodError);
  }

  /** Round trip of `OSC.decode` over `Message#encode` / `Bundle#encode`,
      nested bundles included. */
  lemma {:induction false} PacketRoundTrip(p: Packet)
    requires WirePacket(p)
    ensures DecodePacket(EncodePacket(p)) == Ok(p)
    decreases p, 2
  {
    match p
    case Msg(m) =>
      MessageEncodingIsNotBundle(m);
      MessageRoundTrip(m);
    case Bnd(b) =>
      BundleRoundTrip(b);
  }

  lemma {:induction false} BundleRoundTrip(b: Bundle)
    requires WireBundle(b)
    ensures HasBundlePrefix(EncodeBundle(b))
    ensures DecodeBundle(EncodeBundle(b)) == Ok(b)
    decreases b, 1
  {
    ReadBundle(b.timetag, EncodeElements(b.elements));
    ElementsRoundTrip(b.elements);
  }

  /** `Bundle.decode` of a header, a timetag and a body: the timetag the two
      words give, then the elements of the body. */
  lemma ReadBundle(tt: Option<NtpTime>, body: Bytes)
    ensures var s := BundleHeader + EncodeTimetag(tt) + body;
            var w := EncodeTimetag(tt);
            && HasBundlePrefix(s)
            && DecodeBundle(s)
               == match DecodeElements(body)
                  case Err(e) => Err(e)
                  case Ok(es) => Ok(Bundle(DecodeTimetag(WordValue(w[..4]), WordValue(w[4..])), es))
  {
    var w := EncodeTimetag(tt);
    var s := BundleHeader + w + body;
    ConcatParts(BundleHeader, w, body);
    assert s[..7] == BundleHeader[..7];
    assert s[8..] == w + body;
    ConcatParts(w[..4], w[4..], body);
    assert w[..4] + w[4..] == w;
  }

  lemma {:induction false} ElementsRoundTrip(es: seq<Packet>)
    requires WireElements(es)
    ensures DecodeElements(EncodeElements(es)) == Ok(es)
    decreases es, 0
  {
    if es != [] {
      assert WirePacket(es[0]) && WireElements(es[1..]);
      var x := EncodePacket(es[0]);
      var rest := EncodeElements(es[1..]);
      EncodeElementsFirst(es);
      PacketRoundTrip(es[0]);
      ElementsRoundTrip(es[1..]);
      ReadFramed(x, rest, es[0]);
      assert [es[0]] + es[1..] == es;
    }
  }

  /** The first framed element of a list the decoder can read back. */
  lemma EncodeElementsFirst(es: seq<Packet>)
    requires es != [] && WireElements(es)
    ensures var x := EncodePacket(es[0]);
            |x| < WordRange && EncodeElements(es) == WordBytes(|x|) + x + EncodeElements(es[1..])
  {
    var x := EncodePacket(es[0]);
    SmallWordValue(|x|);
  }

  lemma PrependAllTwice<T>(xs: seq<T>, ys: seq<T>, r: Result<seq<T>>)
    ensures PrependAll(xs, PrependAll(ys, r)) == PrependAll(xs + ys, r)
  {
    if r.Ok? {
      assert xs + (ys + r.value) == xs + ys + r.value;
    }
  }

  lemma PrependNothing<T>(r: Result<seq<T>>)
    ensures PrependAll([], r) == r
  {
    if r.Ok? {
      assert [] + r.value == r.value;
    }
  }

  /** A framed element that decodes, followed by any elements: the element,
      then whatever the rest decodes to. */
  lemma ReadFramed(x: Bytes, rest: Bytes, p: Packet)
    requires |x| < WordRange && DecodePacket(x) == Ok(p)
    ensures DecodeElements(WordBytes(|x|) + x + rest) == PrependAll([p], DecodeElements(rest))
  {
    ConcatParts(WordBytes(|x|), x, rest);
  }

  /** The framed elements of decodable packets, followed by any bytes: those
      packets, then whatever the bytes decode to, or the error they raise. */
  lemma {:induction false} ElementsAfter(es: seq<Packet>, c: Bytes)
    requires WireElements(es)
    ensures DecodeElements(EncodeElements(es) + c) == PrependAll(es, DecodeElements(c))
  {
    if es == [] {
      assert EncodeElements(es) + c == c;
      PrependNothing(DecodeElements(c));
    } else {
      assert WirePacket(es[0]) && WireElements(es[1..]);
      var x := EncodePacket(es[0]);
      var r := EncodeElements(es[1..]);
      EncodeElementsFirst(es);
      PacketRoundTrip(es[0]);
      ElementsAfter(es[1..], c);
      ConcatAssociative(WordBytes(|x|) + x, r, c);
      ReadFramed(x, r + c, es[0]);
      PrependAllTwice([es[0]], es[1..], DecodeElements(c));
      assert [es[0]] + es[1..] == es;
    }
  }

  /** A bundle whose timetag is exactly the pair (0, 1) comes back with a
      `nil` timetag: the sentinel cannot be told apart from that instant. */
  lemma ImmediateSentinelCollision(es: seq<Packet>)
    requires WireElements(es)
    ensures DecodeBundle(EncodeBundle(Bundle(Some(NtpTime(0, 1)), es))) == Ok(Bundle(None, es))
  {
    ReadBundle(Some(NtpTime(0, 1)), EncodeElements(es));
    ElementsRoundTrip(es);
  }

  /** After any decodable elements, a length word claiming more bytes than
      remain makes `scan` return nil, and `OSC.decode(nil)` raises
      NoMethodError. */
  lemma ElementOverrunFails(tt: Option<NtpTime>, es: seq<Packet>, n: u32, rest: Bytes)
    requires WireElements(es) && n > |rest|
    ensures DecodePacket(BundleHeader + EncodeTimetag(tt) + (EncodeElements(es) + (WordBytes(n) + rest)))
            == Err(NoMethodError)
  {
    var c := WordBytes(n) + rest;
    ReadBundle(tt, EncodeElements(es) + c);
    ElementsAfter(es, c);
    assert c[..4] == WordBytes(n);
    assert DecodeElements(c) == Err(NoMethodError);
  }

  /** After any decodable elements, fewer than four bytes leave no length
      word: `scan(/.{4}/)` returns nil and `unpack` on it raises NoMethodError. */
  lemma ShortLengthWordFails(tt: Option<NtpTime>, es: seq<Packet>, c: Bytes)
    requires WireElements(es) && 0 < |c| < 4
    ensures DecodePacket(BundleHeader + EncodeTimetag(tt) + (EncodeElements(es) + c)) == Err(NoMethodError)
  {
    ReadBundle(tt, EncodeElements(es) + c);
    ElementsAfter(es, c);
  }

  /** The tags and payloads of decodable arguments, followed by any tags and
      bytes: those arguments, then whatever the rest decodes to, or the error
      it raises. */
  lemma {:induction false} DecodeArgsAfter(args: seq<Arg>, tags: Bytes, rest: Bytes)
    requires forall i :: 0 <= i < |args| ==> WireArg(args[i])
    ensures DecodeArgs(Tags(args) + tags, Payloads(args) + rest) == PrependAll(args, DecodeArgs(tags, rest))
  {
    if args == [] {
      assert Tags(args) + tags == tags && Payloads(args) + rest == rest;
      PrependNothing(DecodeArgs(tags, rest));
    } else {
      var a := args[0];
      var t, p := Tags(args[1..]), Payloads(args[1..]);
      SplitFirstArg(args, tags, rest);
      DecodeArgsCons(a, t + tags, p + rest);
      DecodeArgsAfter(args[1..], tags, rest);
      PrependAllTwice([a], args[1..], DecodeArgs(tags, rest));
      assert [a] + args[1..] == args;
    }
  }

  /** The tags and payloads of a non-empty argument list, followed by more,
      open with those of its first argument. */
  lemma SplitFirstArg(args: seq<Arg>, tags: Bytes, rest: Bytes)
    requires args != []
    ensures Tags(args) + tags == [Tag(args[0])] + (Tags(args[1..]) + tags)
    ensures Payloads(args) + rest == EncodeArg(args[0]) + (Payloads(args[1..]) + rest)
  {
    ConcatAssociative([Tag(args[0])], Tags(args[1..]), tags);
    ConcatAssociative(EncodeArg(args[0]), Payloads(args[1..]), rest);
  }

  /** `Message.decode` of an address, a tag string that opens with the tags
      of decodable arguments, and their payloads: those arguments, then
      whatever the remaining tags read from the remaining bytes. */
  lemma DecodeMessageAfterArgs(address: Bytes, args: seq<Arg>, tags: Bytes, rest: Bytes)
    requires 0 < |address| && 0 !in address && 0 !in tags
    requires forall i :: 0 <= i < |args| ==> WireArg(args[i])
    ensures DecodeMessage(EncodeString(address) + EncodeString([Comma] + Tags(args) + tags) + (Payloads(args) + rest))
            == match PrependAll(args, DecodeArgs(tags, rest))
               case Err(e) => Err(e)
               case Ok(bs) => Ok(Message(address, bs, false))
  {
    var all := [Comma] + Tags(args) + tags;
    TagStringNulFree(args);
    assert 0 !in all;
    DecodeMessageFields(address, all, Payloads(args) + rest);
    ConcatAssociative([Comma], Tags(args), tags);
    SkipComma(Tags(args) + tags, Payloads(args) + rest);
    DecodeArgsAfter(args, tags, rest);
  }

  /** After the tags and payloads of decodable arguments, remaining tags
      whose arguments fail make the whole message fail the same way. */
  lemma MessageFailsAfterArgs(address: Bytes, args: seq<Arg>, tags: Bytes, rest: Bytes, e: Error)
    requires 0 < |address| && 0 !in address && 0 !in tags
    requires forall i :: 0 <= i < |args| ==> WireArg(args[i])
    requires DecodeArgs(tags, rest) == Err(e)
    ensures DecodeMessage(EncodeString(address) + EncodeString([Comma] + Tags(args) + tags) + (Payloads(args) + rest))
            == Err(e)
  {
    DecodeMessageAfterArgs(address, args, tags, rest);
  }

  /** A blob whose length word claims more bytes than remain, after any
      decodable arguments, fails: with the TypeError of `Blob.new(nil)`, or
      with a RangeError when even the padding moves the position past the
      end. */
  lemma BlobOverrunFails(address: Bytes, args: seq<Arg>, more: Bytes, n: u32, rest: Bytes)
    requires 0 < |address| && 0 !in address && 0 !in more
    requires forall i :: 0 <= i < |args| ==> WireArg(args[i])
    requires n > |rest|
    ensures DecodeMessage(EncodeString(address) + EncodeString([Comma] + Tags(args) + ([TagBlob] + more))
                          + (Payloads(args) + (WordBytes(n) + rest)))
            == if PaddingSize(n + 4) <= |rest| then Err(TypeError) else Err(RangeError)
  {
    var e := ReadBlobOverrun(n, rest);
    FirstArgFails([TagBlob] + more, WordBytes(n) + rest, e);
    MessageFailsAfterArgs(address, args, [TagBlob] + more, WordBytes(n) + rest, e);
  }

  /** The argument loop stops at the first payload it cannot read. */
  lemma FirstArgFails(tags: Bytes, s: Bytes, e: Error)
    requires tags != [] && IsWordChar(tags[0]) && ReadArg(tags[0], s) == Err(e)
    ensures DecodeArgs(tags, s) == Err(e)
  {
  }

  /** The blob reader on a length word that claims more than remains. */
  lemma ReadBlobOverrun(n: u32, rest: Bytes) returns (e: Error)
    requires n > |rest|
    ensures e == if PaddingSize(n + 4) <= |rest| then TypeError else RangeError
    ensures ReadArg(TagBlob, WordBytes(n) + rest) == Err(e)
  {
    var p := WordBytes(n) + rest;
    assert p[..4] == WordBytes(n);
    e := if PaddingSize(n + 4) <= |rest| then TypeError else RangeError;
  }

  /** A word character other than i, f, s and b in the tag string, after the
      tags of any decodable arguments, fails; the error is the NameError of
      the undefined `t`, not a DecodeError. */
  lemma UnknownTagFails(address: Bytes, args: seq<Arg>, t: byte, more: Bytes, rest: Bytes)
    requires 0 < |address| && 0 !in address && 0 !in more
    requires forall i :: 0 <= i < |args| ==> WireArg(args[i])
    requires IsWordChar(t) && t !in {TagInt, TagFloat, TagString, TagBlob}
    ensures DecodeMessage(EncodeString(address) + EncodeString([Comma] + Tags(args) + ([t] + more))
                          + (Payloads(args) + rest))
            == Err(NameError)
  {
    var tags := [t] + more;
    assert tags[0] == t && 0 !in tags;
    assert ReadArg(t, rest) == Err(NameError);
    FirstArgFails(tags, rest, NameError);
    MessageFailsAfterArgs(address, args, tags, rest, NameError);
  }

  lemma {:induction false} TagsAppend(xs: seq<Arg>, ys: seq<Arg>)
    ensures Tags(xs + ys) == Tags(xs) + Tags(ys)
  {
    if xs != [] {
      TagsAppend(xs[1..], ys);
      assert (xs + ys)[1..] == xs[1..] + ys;
    }
  }

  lemma {:induction false} PayloadsAppend(xs: seq<Arg>, ys: seq<Arg>)
    ensures Payloads(xs + ys) == Payloads(xs) + Payloads(ys)
  {
    if xs == [] {
      assert xs + ys == ys && Payloads(xs) == [];
    } else {
      var zs := xs + ys;
      assert zs[0] == xs[0] && zs[1..] == xs[1..] + ys;
      assert Payloads(zs) == EncodeArg(xs[0]) + Payloads(xs[1..] + ys);
      assert Payloads(xs) == EncodeArg(xs[0]) + Payloads(xs[1..]);
      PayloadsAppend(xs[1..], ys);
      ConcatAssociative(EncodeArg(xs[0]), Payloads(xs[1..]), Payloads(ys));
    }
  }

  /** The encoding of a message whose arguments are `args` then `xs`. */
  lemma SplitMessage(address: Bytes, args: seq<Arg>, xs: seq<Arg>)
    ensures EncodeMessage(Message(address, args + xs, false))
            == EncodeString(address) + EncodeString([Comma] + Tags(args) + Tags(xs)) + (Payloads(args) + Payloads(xs))
  {
    TagsAppend(args, xs);
    PayloadsAppend(args, xs);
    ConcatAssociative([Comma], Tags(args), Tags(xs));
  }

  /** The argument loop fails on an empty string first: its payload opens
      with NUL, so the string scan finds nothing. */
  lemma EmptyStringFirstFails(xs: seq<Arg>, more: seq<Arg>)
    requires xs == [Str([])] + more
    ensures DecodeArgs(Tags(xs), Payloads(xs)) == Err(NoMethodError)
  {
    assert xs[0] == Str([]) && xs[1..] == more;
    var p := Payloads(xs);
    assert p == EncodeString([]) + Payloads(more);
    assert p[0] == 0;
    assert ReadArg(TagString, p) == Err(NoMethodError);
    FirstArgFails(Tags(xs), p, NoMethodError);
  }

  /** An empty string argument, after any decodable arguments and before any
      others, encodes to four NULs, which the decoder's `[^\000]+` scan
      cannot read back: `nil.size` raises NoMethodError. */
  lemma EmptyStringNotDecodable(address: Bytes, args: seq<Arg>, more: seq<Arg>)
    requires 0 < |address| && 0 !in address
    requires forall i :: 0 <= i < |args| ==> WireArg(args[i])
    ensures DecodeMessage(EncodeMessage(Message(address, args + [Str([])] + more, false))) == Err(NoMethodError)
  {
    var xs := [Str([])] + more;
    var t, p := Tags(xs), Payloads(xs);
    SplitMessage(address, args, xs);
    assert args + [Str([])] + more == args + xs;
    TagStringNulFree(xs);
    assert 0 !in t;
    EmptyStringFirstFails(xs, more);
    MessageFailsAfterArgs(address, args, t, p, NoMethodError);
  }

  /** A message whose address the relay's `ardosc` pattern matches:
      `/ardosc/1` with 42 and "on". */
  lemma ArdoscExample()
    ensures DecodePacket(EncodePacket(Msg(Message([47, 97, 114, 100, 111, 115, 99, 47, 49], [Int(42), Str([111, 110])], false))))
            == Ok(Msg(Message([47, 97, 114, 100, 111, 115, 99, 47, 49], [Int(42), Str([111, 110])], false)))
  {
    var m := Message([47, 97, 114, 100, 111, 115, 99, 47, 49], [Int(42), Str([111, 110])], false);
    assert m.address[..7] != BundleHeader[..7] by { assert m.address[0] != BundleHeader[0]; }
    PacketRoundTrip(Msg(m));
  }
}
