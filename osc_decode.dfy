/** The decoding half of the codec: `OSC.decode`, `Message.decode` and
    `Bundle.decode`. The Ruby code advances a `StringScanner`; here each
    reader takes the unread input and returns what it read together with
    the input still unread. Failures carry the exception Ruby raises. */
module OscDecode {
  import opened Bytes
  import opened OscValues
  import opened OscEncode

  /** Length of the run of non-NUL bytes at the start of `s`. */
  function NonNulPrefix(s: Bytes): (n: nat)
    ensures n <= |s|
    ensures forall i :: 0 <= i < n ==> s[i] != 0
    ensures n < |s| ==> s[n] == 0
  {
    if s == [] || s[0] == 0 then 0 else 1 + NonNulPrefix(s[1..])
  }

  /** One string field: `scan(/[^\000]+\000/)` (at least one non-NUL byte,
      then a NUL), `pos += padding_size(size)` counted with the NUL, and
      `chomp("\000")`. Yields the string and the unread input. A failed scan
      returns nil, whose `size` raises NoMethodError; moving the position
      past the end raises RangeError. */
  function ReadString(s: Bytes): (r: Result<(Bytes, Bytes)>)
    ensures r.Ok? ==> 0 < |r.value.0| && 0 !in r.value.0
    ensures r.Ok? ==> var n := |r.value.0|;
      n + 1 + PaddingSize(n + 1) <= |s| && s[..n] == r.value.0 && s[n] == 0
      && r.value.1 == s[n + 1 + PaddingSize(n + 1)..]
    ensures r == Err(NoMethodError) <==> s == [] || s[0] == 0 || 0 !in s
    ensures r.Err? ==> r.error in {NoMethodError, RangeError}
    ensures var n := NonNulPrefix(s);
            r.Ok? <==> 0 < n < |s| && n + 1 + PaddingSize(n + 1) <= |s|
  {
    var n := NonNulPrefix(s);
    if n == 0 || n == |s| then Err(NoMethodError)
    else
      var next := n + 1 + PaddingSize(n + 1);
      if next > |s| then Err(RangeError) else Ok((s[..n], s[next..]))
  }

  /** The characters `tags.scan(/\w/)` visits: ASCII letters, digits and `_`. */
  predicate IsWordChar(b: byte)
  {
    (48 <= b <= 57) || (65 <= b <= 90) || (97 <= b <= 122) || b == 95
  }

  /** What a decoding loop gives after reading `xs`: `xs` followed by what
      the rest gives, or the error the rest raises. */
  function PrependAll<T>(xs: seq<T>, r: Result<seq<T>>): (r': Result<seq<T>>)
    ensures r'.Ok? <==> r.Ok?
    ensures r'.Ok? ==> r'.value == xs + r.value
    ensures r'.Err? ==> r'.error == r.error
  {
    match r
    case Err(e) => Err(e)
    case Ok(ys) => Ok(xs + ys)
  }

  /** One branch of the `case tag` in `Message.decode`: the payload of the
      argument that word character `t` announces, and the unread input.
      `N` words come back signed; a blob longer than the input fails with
      `Blob.new(nil)`, or earlier when its padding already overruns; any other word character reaches the branch whose
      message names an undefined `t`, a NameError. */
  function ReadArg(t: byte, s: Bytes): (r: Result<(Arg, Bytes)>)
    ensures r.Ok? ==> WireArg(r.value.0) && Tag(r.value.0) == t
    ensures r == Err(NameError) <==> t !in {TagInt, TagFloat, TagString, TagBlob}
  {
    if t == TagInt then
      if |s| < 4 then Err(NoMethodError) else Ok((Int(Signed(WordValue(s[..4]))), s[4..]))
    else if t == TagFloat then
      if |s| < 4 then Err(NoMethodError) else Ok((Float(s[..4]), s[4..]))
    else if t == TagString then
      match ReadString(s)
      case Err(e) => Err(e)
      case Ok((str, rest)) => Ok((Str(str), rest))
    else if t == TagBlob then
      if |s| < 4 then Err(NoMethodError)
      else
        var size := WordValue(s[..4]);
        if |s| - 4 < size then
          // the scan fails without moving; the position still advances by
          // the padding before `Blob.new(nil)` is reached
          if 4 + PaddingSize(size + 4) > |s| then Err(RangeError) else Err(TypeError)
        else
          var next := 4 + size + PaddingSize(size + 4);
          if next > |s| then Err(RangeError) else Ok((Blob(s[4..4 + size]), s[next..]))
    else Err(NameError)
  }

  /** The argument loop of `Message.decode`: one payload per word character
      of the tag string, other characters skipped. */
  function DecodeArgs(tags: Bytes, s: Bytes): (r: Result<seq<Arg>>)
    ensures r.Ok? ==> forall i :: 0 <= i < |r.value| ==> WireArg(r.value[i])
  {
    if tags == [] then Ok([])
    else if !IsWordChar(tags[0]) then DecodeArgs(tags[1..], s)
    else
      match ReadArg(tags[0], s)
      case Err(e) => Err(e)
      case Ok((a, rest)) => PrependAll([a], DecodeArgs(tags[1..], rest))
  }

  /** Arguments as the decoder can produce them: ints in the int32 range,
      strings non-empty and free of NUL, blobs whose length fits a word. */
  predicate WireArg(a: Arg)
  {
    match a
    case Int(i) => -0x8000_0000 <= i < 0x8000_0000
    case Float(_) => true
    case Str(s) => 0 < |s| && 0 !in s
    case Blob(d) => |d| < WordRange
  }

  /** `Message.decode`: the address, the tag string, then the arguments.
      Bytes after the last argument are ignored. */
  function DecodeMessage(s: Bytes): (r: Result<Message>)
    ensures r.Ok? ==> 0 < |r.value.address| && 0 !in r.value.address && !r.value.blobAddress
    ensures r.Ok? ==> forall i :: 0 <= i < |r.value.args| ==> WireArg(r.value.args[i])
  {
    match ReadString(s)
    case Err(e) => Err(e)
    case Ok((address, rest)) =>
      match ReadString(rest)
      case Err(e) => Err(e)
      case Ok((tags, rest')) =>
        match DecodeArgs(tags, rest')
        case Err(e) => Err(e)
        case Ok(args) => Ok(Message(address, args, false))
  }

  /** The test `OSC.decode` makes: the input starts with `#bundle`. */
  predicate HasBundlePrefix(s: Bytes)
  {
    |s| >= 7 && s[..7] == BundleHeader[..7]
  }

  /** The timetag `Bundle.decode` builds from its two words: exactly the
      pair (0, 1) means nil. */
  function DecodeTimetag(seconds: u32, fraction: u32): (tt: Option<NtpTime>)
    ensures tt.None? <==> seconds == 0 && fraction == 1
    ensures tt.Some? ==> tt.value == NtpTime(seconds, fraction)
  {
    if seconds == 0 && fraction == 1 then None else Some(NtpTime(seconds, fraction))
  }

  /** `Bundle.decode`: strip a leading `#bundle\0`, read the two timetag
      words (fewer than eight bytes leave one of them nil, and the
      arithmetic on it raises NoMethodError), then the framed elements. */
  function DecodeBundle(s: Bytes): (r: Result<Bundle>)
    decreases |s|, 1
  {
    var body := if |s| >= 8 && s[..8] == BundleHeader then s[8..] else s;
    if |body| < 8 then Err(NoMethodError)
    else
      match DecodeElements(body[8..])
      case Err(e) => Err(e)
      case Ok(es) => Ok(Bundle(DecodeTimetag(WordValue(body[..4]), WordValue(body[4..8])), es))
  }

  /** The `until scanner.eos?` loop of `Bundle.decode`: a length word, then
      that many bytes decoded with `OSC.decode`. A short length word or a
      short element makes a scan return nil, and the next call on it raises
      NoMethodError. */
  function DecodeElements(c: Bytes): (r: Result<seq<Packet>>)
    decreases |c|, 0
  {
    if c == [] then Ok([])
    else if |c| < 4 then Err(NoMethodError)
    else
      var size := WordValue(c[..4]);
      if |c| - 4 < size then Err(NoMethodError)
      else
        match DecodePacket(c[4..4 + size])
        case Err(e) => Err(e)
        case Ok(p) =>
          match DecodeElements(c[4 + size..])
          case Err(e) => Err(e)
          case Ok(rest) => Ok([p] + rest)
  }

  /** `OSC.decode`: a Bundle when the input starts with `#bundle`, a Message
      otherwise. */
  function DecodePacket(s: Bytes): (r: Result<Packet>)
    ensures r.Ok? ==> (r.value.Bnd? <==> HasBundlePrefix(s))
    decreases |s|, 2
  {
    if HasBundlePrefix(s) then
      match DecodeBundle(s)
      case Err(e) => Err(e)
      case Ok(b) => Ok(Bnd(b))
    else
      match DecodeMessage(s)
      case Err(e) => Err(e)
      case Ok(m) => Ok(Msg(m))
  }
}
