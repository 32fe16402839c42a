/** The Blynk wire format: a 5-byte big-endian header `!BHH` (type, id, length)
    followed by a body of text fields separated by single NUL bytes, plus the
    decimal text that `str(int)` writes and `int(text)` reads inside a body.
    The library is Python 2 code, so a Python `str` is a byte string here. */
module Wire {

  /** One octet on the wire. */
  type byte = b: int | 0 <= b < 0x100

  type Bytes = seq<byte>

  datatype Option<T> = None | Some(value: T)

  // ---------------------------------------------------------------------------
  // Protocol constants (BlynkLib.py:98-114)

  const HDR_LEN: nat := 5
  const MAX_MSG_PER_SEC: nat := 20

  const MSG_RSP: int := 0
  const MSG_LOGIN: int := 2
  const MSG_PING: int := 6
  const MSG_TWEET: int := 12
  const MSG_EMAIL: int := 13
  const MSG_NOTIFY: int := 14
  const MSG_BRIDGE: int := 15
  const MSG_HW_SYNC: int := 16
  const MSG_HW_INFO: int := 17
  const MSG_HW: int := 20

  const STA_SUCCESS: int := 200

  const NUL: byte := 0

  // ---------------------------------------------------------------------------
  // Header: struct.pack / struct.unpack with format "!BHH"

  predicate IsU8(x: int) { 0 <= x < 0x100 }
  predicate IsU16(x: int) { 0 <= x < 0x1_0000 }

  /** The three header fields; the third is a body length, or a status code in a response. */
  datatype Header = Header(msgType: int, msgId: int, length: int)

  /** struct.pack accepts the fields only when each fits its unsigned width. */
  predicate Packable(h: Header) {
    IsU8(h.msgType) && IsU16(h.msgId) && IsU16(h.length)
  }

  /** struct.pack("!BHH", ...): None stands for struct.error (a field out of range). */
  function Pack(h: Header): (r: Option<Bytes>)
    ensures r.Some? <==> Packable(h)
    ensures r.Some? ==> |r.value| == HDR_LEN
  {
    if Packable(h) then
      Some([h.msgType, h.msgId / 0x100, h.msgId % 0x100, h.length / 0x100, h.length % 0x100])
    else None
  }

  /** struct.unpack("!BHH", b) on exactly five bytes: most significant byte first. */
  function Unpack(b: Bytes): (h: Header)
    requires |b| == HDR_LEN
    ensures Packable(h)
  {
    Header(b[0] as int, b[1] as int * 0x100 + b[2], b[3] as int * 0x100 + b[4])
  }

  /** Unpacking a packed header gives back its fields. */
  lemma UnpackPack(h: Header)
    requires Packable(h)
    ensures Pack(h).Some? && Unpack(Pack(h).value) == h
  {
  }

  /** Every five bytes are the packing of the header they unpack to. */
  lemma PackUnpack(b: Bytes)
    requires |b| == HDR_LEN
    ensures Pack(Unpack(b)) == Some(b)
  {
    var h := Unpack(b);
    assert Pack(h).value == b;
  }

  /** The packed header is big-endian: type, then the id's high and low byte,
      then the length's high and low byte. */
  lemma PackBigEndian(h: Header)
    requires Packable(h)
    ensures Pack(h).Some?
    ensures Pack(h).value[0] == h.msgType
    ensures Pack(h).value[1] as int * 0x100 + Pack(h).value[2] == h.msgId
    ensures Pack(h).value[3] as int * 0x100 + Pack(h).value[4] == h.length
  {
  }

  // ---------------------------------------------------------------------------
  // Body: '\0'.join(args) and data.split(b'\0')

  predicate NoNul(s: Bytes) { NUL !in s }

  predicate AllNoNul(fields: seq<Bytes>) {
    forall i :: 0 <= i < |fields| ==> NoNul(fields[i])
  }

  /** '\0'.join(args): exactly one NUL between consecutive fields, none at the ends. */
  function Join(args: seq<Bytes>): (body: Bytes)
    decreases |args|
  {
    if |args| == 0 then []
    else if |args| == 1 then args[0]
    else args[0] + [NUL] + Join(args[1..])
  }

  /** data.split(b'\0'): the maximal NUL-free runs, in order; an empty body
      gives one empty field, as in Python. */
  function Split(body: Bytes): (fields: seq<Bytes>)
    ensures |fields| >= 1
    ensures AllNoNul(fields)
    decreases |body|
  {
    if |body| == 0 then [[]]
    else
      var rest := Split(body[1..]);
      if body[0] == NUL then [[]] + rest
      else [[body[0]] + rest[0]] + rest[1..]
  }

  /** Total number of bytes in a list of fields. */
  function TotalLength(args: seq<Bytes>): nat
    decreases |args|
  {
    if args == [] then 0 else |args[0]| + TotalLength(args[1..])
  }

  /** The joined body is the fields plus one separator between each two. */
  lemma {:induction false} JoinLength(args: seq<Bytes>)
    requires |args| >= 1
    ensures |Join(args)| == TotalLength(args) + |args| - 1
    decreases |args|
  {
    if |args| > 1 {
      JoinLength(args[1..]);
    }
  }

  /** Joining what Split produced restores the body, for every body. */
  lemma {:induction false} JoinSplit(body: Bytes)
    ensures Join(Split(body)) == body
    decreases |body|
  {
    if |body| > 0 {
      var rest := Split(body[1..]);
      JoinSplit(body[1..]);
      if body[0] == NUL {
        assert Split(body) == [[]] + rest;
        assert Join(Split(body)) == [] + [NUL] + Join(rest);
        assert body == [NUL] + body[1..];
      } else {
        var head := [body[0]] + rest[0];
        assert Split(body) == [head] + rest[1..];
        if |rest| == 1 {
          assert Join(Split(body)) == head;
          assert Join(rest) == rest[0];
        } else {
          assert ([head] + rest[1..])[1..] == rest[1..];
          assert Join(Split(body)) == head + [NUL] + Join(rest[1..]);
          assert Join(rest) == rest[0] + [NUL] + Join(rest[1..]);
        }
        assert body == [body[0]] + body[1..];
      }
    }
  }

  /** Splitting a joined body gives back the fields when none contains NUL
      (and there is at least one: an empty list joins to the same body as [""]). */
  lemma {:induction false} SplitJoin(args: seq<Bytes>)
    requires |args| >= 1
    requires AllNoNul(args)
    ensures Split(Join(args)) == args
    decreases TotalLength(args), |args|
  {
    if |args[0]| == 0 {
      if |args| > 1 {
        assert Join(args) == [NUL] + Join(args[1..]);
        AllNoNulTail(args);
        TotalLengthTail(args);
        SplitJoin(args[1..]);
        SplitNul(Join(args[1..]));
        assert args == [[]] + args[1..];
      }
    } else {
      var shorter := [args[0][1..]] + args[1..];
      AllNoNulShorter(args);
      assert TotalLength(shorter) < TotalLength(args) by {
        assert shorter[1..] == args[1..];
      }
      SplitJoin(shorter);
      SplitJoinByte(args[0], args[1..]);
      assert args == [args[0]] + args[1..];
    }
  }

  /** The step of SplitJoin for a non-empty first field: its first byte goes
      back in front of what the shorter list splits into. */
  lemma SplitJoinByte(a: Bytes, rest: seq<Bytes>)
    requires |a| > 0 && a[0] != NUL
    requires Split(Join([a[1..]] + rest)) == [a[1..]] + rest
    ensures Split(Join([a] + rest)) == [a] + rest
  {
    var shorter := [a[1..]] + rest;
    JoinCons(a, rest);
    JoinCons(a[1..], rest);
    assert Join([a] + rest) == [a[0]] + Join(shorter);
    SplitByte(a[0], Join(shorter));
    assert [a[0]] + a[1..] == a;
  }

  lemma AllNoNulTail(args: seq<Bytes>)
    requires |args| >= 1 && AllNoNul(args)
    ensures AllNoNul(args[1..])
  {
    forall i | 0 <= i < |args[1..]| ensures NoNul(args[1..][i]) { assert args[1..][i] == args[i + 1]; }
  }

  /** Dropping the first byte of the first field keeps every field NUL-free,
      and that byte is not NUL. */
  lemma AllNoNulShorter(args: seq<Bytes>)
    requires |args| >= 1 && |args[0]| > 0 && AllNoNul(args)
    ensures AllNoNul([args[0][1..]] + args[1..])
    ensures args[0][0] != NUL
  {
    var shorter := [args[0][1..]] + args[1..];
    assert NoNul(args[0]);
    assert args[0][0] in args[0];
    forall i | 0 <= i < |shorter| ensures NoNul(shorter[i]) {
      if i > 0 { assert shorter[i] == args[i]; }
    }
  }

  /** A leading separator opens an empty first field. */
  lemma SplitNul(x: Bytes)
    ensures Split([NUL] + x) == [[]] + Split(x)
  {
    assert ([NUL] + x)[1..] == x;
  }

  /** A leading non-separator byte goes to the front of the first field. */
  lemma SplitByte(b: byte, x: Bytes)
    requires b != NUL
    ensures Split([b] + x) == [[b] + Split(x)[0]] + Split(x)[1..]
  {
    assert ([b] + x)[1..] == x;
  }

  /** Join of a list given as its first field and the rest. */
  lemma JoinCons(first: Bytes, rest: seq<Bytes>)
    ensures Join([first] + rest) == if rest == [] then first else first + [NUL] + Join(rest)
  {
    assert ([first] + rest)[1..] == rest;
  }

  lemma TotalLengthTail(args: seq<Bytes>)
    requires |args| >= 1
    ensures TotalLength(args) == |args[0]| + TotalLength(args[1..])
  {
  }

  // ---------------------------------------------------------------------------
  // Decimal text: str(int) and int(text)

  predicate IsDigit(b: byte) { 48 <= b <= 57 }

  predicate AllDigits(s: Bytes) {
    forall i :: 0 <= i < |s| ==> IsDigit(s[i])
  }

  /** The whitespace Python's int() skips around a number given as ASCII text. */
  predicate IsSpace(b: byte) { b == 32 || 9 <= b <= 13 || 28 <= b <= 31 }

  /** Decimal digits of a natural number, most significant first, no leading zero. */
  function Digits(n: nat): (s: Bytes)
    ensures |s| >= 1 && AllDigits(s)
    decreases n
  {
    if n < 10 then [48 + n] else Digits(n / 10) + [48 + n % 10]
  }

  /** str(i) for an int: a '-' before the digits of a negative number. */
  function IntText(i: int): (s: Bytes)
    ensures |s| >= 1
  {
    if i < 0 then [45] + Digits(-i) else Digits(i)
  }

  /** The value of a string of decimal digits, leading zeros allowed. */
  function DigitsValue(s: Bytes): nat
    requires AllDigits(s)
    decreases |s|
  {
    if s == [] then 0 else DigitsValue(s[..|s| - 1]) * 10 + (s[|s| - 1] - 48)
  }

  predicate AllSpace(s: Bytes) {
    forall k :: 0 <= k < |s| ==> IsSpace(s[k])
  }

  /** The number of whitespace bytes the text starts with. */
  function LeadingSpaces(s: Bytes): (n: nat)
    ensures n <= |s|
    ensures forall k :: 0 <= k < n ==> IsSpace(s[k])
    ensures n < |s| ==> !IsSpace(s[n])
    decreases |s|
  {
    if |s| > 0 && IsSpace(s[0]) then 1 + LeadingSpaces(s[1..]) else 0
  }

  /** The number of whitespace bytes the text ends with. */
  function TrailingSpaces(s: Bytes): (n: nat)
    ensures n <= |s|
    ensures forall k :: |s| - n <= k < |s| ==> IsSpace(s[k])
    ensures n < |s| ==> !IsSpace(s[|s| - 1 - n])
    decreases |s|
  {
    if |s| > 0 && IsSpace(s[|s| - 1]) then 1 + TrailingSpaces(s[..|s| - 1]) else 0
  }

  /** The text with leading and trailing whitespace removed: a slice of the
      text that neither starts nor ends with whitespace, with only whitespace
      before and after it. */
  function Strip(s: Bytes): (t: Bytes)
    ensures |t| <= |s|
    ensures |t| > 0 ==> !IsSpace(t[0]) && !IsSpace(t[|t| - 1])
  {
    var u := s[LeadingSpaces(s)..];
    u[..|u| - TrailingSpaces(u)]
  }

  /** What Strip removes is whitespace: the result is the slice of the text
      after its leading whitespace, and only whitespace follows it. */
  lemma StripSpec(s: Bytes)
    ensures var i := LeadingSpaces(s);
      && i + |Strip(s)| <= |s|
      && Strip(s) == s[i..i + |Strip(s)|]
      && (forall k :: 0 <= k < i ==> IsSpace(s[k]))
      && (forall k :: i + |Strip(s)| <= k < |s| ==> IsSpace(s[k]))
  {
    var i := LeadingSpaces(s);
    var u := s[i..];
    var j := TrailingSpaces(u);
    assert forall k :: i + |Strip(s)| <= k < |s| ==> s[k] == u[k - i];
  }

  /** int(text) in base 10 as CPython 2 reads it: optional whitespace, an
      optional '+' or '-' which may itself be followed by whitespace, then at
      least one digit, then optional whitespace; None stands for the
      ValueError of any other text. Accepted text ends in a digit, and only a
      leading '-' gives a negative number. */
  function ParseInt(s: Bytes): (r: Option<int>)
    ensures r.Some? ==> |Strip(s)| > 0 && IsDigit(Strip(s)[|Strip(s)| - 1])
    ensures r.Some? && r.value < 0 ==> Strip(s)[0] == 45
  {
    ParseStripped(Strip(s))
  }

  /** int() on text that has already been stripped. */
  function ParseStripped(t: Bytes): (r: Option<int>)
    ensures r.Some? ==> |t| > 0 && IsDigit(t[|t| - 1])
    ensures r.Some? && r.value < 0 ==> t[0] == 45
  {
    if |t| > 0 && (t[0] == 43 || t[0] == 45) then
      var d := t[1..][LeadingSpaces(t[1..])..];
      if |d| > 0 && AllDigits(d) then
        assert d[|d| - 1] == t[|t| - 1];
        Some(if t[0] == 45 then -(DigitsValue(d) as int) else DigitsValue(d))
      else None
    else if |t| > 0 && AllDigits(t) then Some(DigitsValue(t))
    else None
  }

  lemma {:induction false} DigitsValueOfDigits(n: nat)
    ensures DigitsValue(Digits(n)) == n
    decreases n
  {
    if n >= 10 {
      DigitsValueOfDigits(n / 10);
      var s := Digits(n);
      assert s[..|s| - 1] == Digits(n / 10);
    }
  }

  lemma StripNoSpace(s: Bytes)
    requires |s| > 0 && !IsSpace(s[0]) && !IsSpace(s[|s| - 1])
    ensures Strip(s) == s
  {
  }

  /** int(str(i)) == i: the decimal text the library writes reads back as the same int. */
  lemma ParseIntText(i: int)
    ensures ParseInt(IntText(i)) == Some(i)
  {
    if i < 0 {
      ParseNegative(-i);
    } else {
      ParseDigits(i);
    }
  }

  /** The digits of n read back as n. */
  lemma ParseDigits(n: nat)
    ensures ParseInt(Digits(n)) == Some(n)
  {
    var s := Digits(n);
    DigitsValueOfDigits(n);
    assert IsDigit(s[0]) && IsDigit(s[|s| - 1]);
    StripNoSpace(s);
  }

  /** A '-' followed by the digits of n reads back as -n. */
  lemma ParseNegative(n: nat)
    ensures ParseInt([45] + Digits(n)) == Some(-(n as int))
  {
    ParseSignedDigits(n, []);
    assert [45] + [] + Digits(n) == [45] + Digits(n);
  }

  /** A sign, any run of whitespace, and the digits of n read back as -n or
      n: CPython 2 skips whitespace after the sign, so int(u'- 5') == -5. */
  lemma ParseSignedDigits(n: nat, pad: Bytes)
    requires AllSpace(pad)
    ensures ParseInt([45] + pad + Digits(n)) == Some(-(n as int))
    ensures ParseInt([43] + pad + Digits(n)) == Some(n)
  {
    var d := Digits(n);
    DigitsValueOfDigits(n);
    ParseSignedText(45, pad, d);
    ParseSignedText(43, pad, d);
  }

  lemma ParseSignedText(sign: byte, pad: Bytes, d: Bytes)
    requires sign == 43 || sign == 45
    requires AllSpace(pad) && |d| > 0 && AllDigits(d)
    ensures ParseInt([sign] + pad + d) == Some(if sign == 45 then -(DigitsValue(d) as int) else DigitsValue(d))
  {
    SignedText(sign, pad, d);
    var s := [sign] + pad + d;
    assert s[0] == sign;
    ParseStrippedSigned(s, d);
  }

  lemma ParseStrippedSigned(t: Bytes, d: Bytes)
    requires |t| > 0 && (t[0] == 43 || t[0] == 45)
    requires t[1..][LeadingSpaces(t[1..])..] == d && |d| > 0 && AllDigits(d)
    ensures ParseStripped(t) == Some(if t[0] == 45 then -(DigitsValue(d) as int) else DigitsValue(d))
  {
  }

  /** A signed text with whitespace after the sign is its own stripped form,
      and the digits are what follows the sign and the whitespace. */
  lemma SignedText(sign: byte, pad: Bytes, d: Bytes)
    requires sign == 43 || sign == 45
    requires AllSpace(pad) && |d| > 0 && AllDigits(d)
    ensures var s := [sign] + pad + d;
      Strip(s) == s && s[1..][LeadingSpaces(s[1..])..] == d
  {
    var s := [sign] + pad + d;
    assert s[|s| - 1] == d[|d| - 1];
    StripNoSpace(s);
    assert s[1..] == pad + d;
    LeadingSpacesPrefix(pad, d);
  }

  /** Whitespace in front of a text that does not start with whitespace is
      exactly its leading run. */
  lemma {:induction false} LeadingSpacesPrefix(pad: Bytes, d: Bytes)
    requires AllSpace(pad) && |d| > 0 && !IsSpace(d[0])
    ensures LeadingSpaces(pad + d) == |pad|
    ensures (pad + d)[|pad|..] == d
    decreases |pad|
  {
    var x := pad + d;
    if pad == [] {
      assert x == d;
    } else {
      assert x[0] == pad[0];
      assert x[1..] == pad[1..] + d;
      LeadingSpacesPrefix(pad[1..], d);
    }
  }

  /** Decimal text never contains NUL, so it is always a single body field. */
  lemma IntTextNoNul(i: int)
    ensures NoNul(IntText(i))
  {
    var s := IntText(i);
    var d := if i < 0 then Digits(-i) else Digits(i);
    assert forall k :: 0 <= k < |d| ==> d[k] != NUL;
    if i < 0 {
      assert forall k :: 1 <= k < |s| ==> s[k] == d[k - 1];
    }
  }

  // ---------------------------------------------------------------------------
  // Whole frames

  /** A message as _format_msg builds it (BlynkLib.py:241-243): header then body. */
  function Frame(msgType: int, msgId: int, args: seq<Bytes>): (r: Option<Bytes>)
  {
    var body := Join(args);
    match Pack(Header(msgType, msgId, |body|))
    case None => None
    case Some(h) => Some(h + body)
  }

  /** A frame is exactly five header bytes that unpack to (type, id, |body|),
      followed by the body, which splits back into the arguments. */
  lemma FrameRoundTrip(msgType: int, msgId: int, args: seq<Bytes>)
    requires IsU8(msgType) && IsU16(msgId) && |Join(args)| < 0x1_0000
    requires |args| >= 1 && AllNoNul(args)
    ensures Frame(msgType, msgId, args).Some?
    ensures var f := Frame(msgType, msgId, args).value;
      |f| == HDR_LEN + |Join(args)| &&
      Unpack(f[..HDR_LEN]) == Header(msgType, msgId, |Join(args)|) &&
      Split(f[HDR_LEN..]) == args
  {
    var h := Header(msgType, msgId, |Join(args)|);
    UnpackPack(h);
    var f := Frame(msgType, msgId, args).value;
    assert f[..HDR_LEN] == Pack(h).value;
    assert f[HDR_LEN..] == Join(args);
    SplitJoin(args);
  }

  /** A frame can be built exactly when the body fits the 16-bit length field
      (for a valid type and id). */
  lemma FrameDefined(msgType: int, msgId: int, args: seq<Bytes>)
    requires IsU8(msgType) && IsU16(msgId)
    ensures Frame(msgType, msgId, args).Some? <==> |Join(args)| < 0x1_0000
  {
  }
}
