/** Hexadecimal text, big-endian integers and length-prefixed fields.  A string stands for
    its bytes: every character is one byte of the encoded text. */
module Encoding {
  import opened Numerals

  type byte = b: int | 0 <= b < 256

  /** hex.EncodeToString. */
  function HexEncode(bytes: seq<byte>): (text: string)
    ensures |text| == 2 * |bytes|
  {
    if bytes == [] then ""
    else [DigitChar(bytes[0] / 16), DigitChar(bytes[0] % 16)] + HexEncode(bytes[1..])
  }

  lemma {:induction false} HexInjective(a: seq<byte>, b: seq<byte>)
    requires HexEncode(a) == HexEncode(b)
    ensures a == b
  {
    if a != [] && b != [] {
      var s, t := HexEncode(a), HexEncode(b);
      assert s[0] == t[0] && s[1] == t[1] && s[2..] == HexEncode(a[1..]) && t[2..] == HexEncode(b[1..]);
      assert DigitValue(s[0]) == a[0] / 16 && DigitValue(t[0]) == b[0] / 16;
      assert DigitValue(s[1]) == a[0] % 16 && DigitValue(t[1]) == b[0] % 16;
      HexInjective(a[1..], b[1..]);
      assert a == [a[0]] + a[1..] && b == [b[0]] + b[1..];
    } else {
      assert |a| == |b|;
    }
  }

  /** The low `width` bytes of n, most significant first. */
  function BigEndian(n: nat, width: nat): (bytes: seq<byte>)
    ensures |bytes| == width
  {
    if width == 0 then [] else BigEndian(n / 256, width - 1) + [n % 256]
  }

  predicate FitsIn(n: nat, width: nat) {
    if width == 0 then n == 0 else FitsIn(n / 256, width - 1)
  }

  lemma {:induction false} BigEndianInjective(m: nat, n: nat, width: nat)
    requires FitsIn(m, width) && FitsIn(n, width)
    requires BigEndian(m, width) == BigEndian(n, width)
    ensures m == n
  {
    if width > 0 {
      var s, t := BigEndian(m, width), BigEndian(n, width);
      assert s[width - 1] == t[width - 1];
      assert s[..width - 1] == BigEndian(m / 256, width - 1) && t[..width - 1] == BigEndian(n / 256, width - 1);
      BigEndianInjective(m / 256, n / 256, width - 1);
    }
  }

  const UINT32_LIMIT: nat := 0x1_0000_0000

  lemma Uint32Fits(n: nat)
    requires n < UINT32_LIMIT
    ensures FitsIn(n, 4)
  {
    var a := n / 256;
    var b := a / 256;
    var c := b / 256;
    assert FitsIn(c / 256, 0) && FitsIn(c, 1) && FitsIn(b, 2) && FitsIn(a, 3);
  }

  lemma Uint64Fits(n: nat)
    requires n < UINT64_LIMIT
    ensures FitsIn(n, 8)
  {
    var a := n / 256;
    var b := a / 256;
    var c := b / 256;
    var d := c / 256;
    Uint32Fits(d);
    assert FitsIn(c, 5) && FitsIn(b, 6) && FitsIn(a, 7);
  }

  // ----- length-prefixed fields -----

  /** A header of fixed width that tells lengths below 2^64 apart. */
  ghost predicate Header(header: nat -> string, width: nat) {
    && (forall n: nat :: |header(n)| == width)
    && (forall m: nat, n: nat :: m < UINT64_LIMIT && n < UINT64_LIMIT && header(m) == header(n) ==> m == n)
  }

  function Frame(header: nat -> string, field: string): string {
    header(|field|) + field
  }

  /** A framed field at the front of a stream can be read off in only one way. */
  lemma FrameIsPrefixCode(header: nat -> string, width: nat, f: string, g: string, s: string, t: string)
    requires Header(header, width) && |f| < UINT64_LIMIT && |g| < UINT64_LIMIT
    requires Frame(header, f) + s == Frame(header, g) + t
    ensures f == g && s == t
  {
    var all := Frame(header, f) + s;
    assert all[..width] == header(|f|) && all[..width] == header(|g|);
    assert all[width..width + |f|] == f && all[width..width + |f|] == g;
    assert all[width + |f|..] == s && all[width + |f|..] == t;
  }

  /** The length prefix of encodeFields: eight bytes as sixteen hexadecimal digits. */
  function HexHeader(n: nat): string {
    HexEncode(BigEndian(n, 8))
  }

  lemma HexHeaderOk()
    ensures Header(HexHeader, 16)
  {
    forall m: nat, n: nat | m < UINT64_LIMIT && n < UINT64_LIMIT && HexHeader(m) == HexHeader(n) ensures m == n {
      HexInjective(BigEndian(m, 8), BigEndian(n, 8));
      Uint64Fits(m);
      Uint64Fits(n);
      BigEndianInjective(m, n, 8);
    }
  }

  /** Raw bytes inside a byte stream. */
  function Raw(bytes: seq<byte>): (text: string)
    ensures |text| == |bytes| && forall i | 0 <= i < |text| :: text[i] == bytes[i] as char
  {
    seq(|bytes|, i requires 0 <= i < |bytes| => bytes[i] as char)
  }

  lemma RawInjective(a: seq<byte>, b: seq<byte>)
    requires Raw(a) == Raw(b)
    ensures a == b
  {
    assert |a| == |b|;
    forall i | 0 <= i < |a| ensures a[i] == b[i] {
      assert Raw(a)[i] == Raw(b)[i];
    }
  }

  /** The length prefix of the bundle identity stream: eight raw bytes. */
  function RawHeader(n: nat): string {
    Raw(BigEndian(n, 8))
  }

  lemma RawHeaderOk()
    ensures Header(RawHeader, 8)
  {
    forall m: nat, n: nat | m < UINT64_LIMIT && n < UINT64_LIMIT && RawHeader(m) == RawHeader(n) ensures m == n {
      RawInjective(BigEndian(m, 8), BigEndian(n, 8));
      Uint64Fits(m);
      Uint64Fits(n);
      BigEndianInjective(m, n, 8);
    }
  }

  /** encodeFields. */
  function EncodeFields(fields: seq<string>): string {
    if fields == [] then "" else Frame(HexHeader, fields[0]) + EncodeFields(fields[1..])
  }

  /** Every length is one a Go string can have. */
  predicate Sized(fields: seq<string>) {
    forall f | f in fields :: |f| < UINT64_LIMIT
  }

  /** encodeFields is uniquely decodable. */
  lemma {:induction false} EncodeFieldsInjective(a: seq<string>, b: seq<string>)
    requires Sized(a) && Sized(b) && EncodeFields(a) == EncodeFields(b)
    ensures a == b
  {
    if a != [] && b != [] {
      HexHeaderOk();
      FrameIsPrefixCode(HexHeader, 16, a[0], b[0], EncodeFields(a[1..]), EncodeFields(b[1..]));
      EncodeFieldsInjective(a[1..], b[1..]);
      assert a == [a[0]] + a[1..] && b == [b[0]] + b[1..];
    } else {
      assert |HexHeader(0)| == 16;
    }
  }

  lemma {:induction false} EncodeFieldsConcat(a: seq<string>, b: seq<string>)
    ensures EncodeFields(a + b) == EncodeFields(a) + EncodeFields(b)
  {
    if a == [] {
      assert a + b == b;
    } else {
      assert (a + b)[0] == a[0] && (a + b)[1..] == a[1..] + b;
      EncodeFieldsConcat(a[1..], b);
    }
  }
}
