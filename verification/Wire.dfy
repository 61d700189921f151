/** The Protocol Buffers wire format as the generated code uses it: base-128
    varints, little-endian fixed words, and tagged records.  A byte string is
    read as a sequence of records; what a record means to a particular message
    is left to module Messages. */
module Wire {

  datatype Option<+T> = None | Some(value: T)

  const TWO16 := 0x1_0000
  const TWO31 := 0x8000_0000
  const TWO32 := 0x1_0000_0000
  const TWO64 := 0x1_0000_0000_0000_0000
  const INT_MAX := 0x7FFF_FFFF

  type byte = b: int | 0 <= b < 256
  type uint16 = n: int | 0 <= n < 0x1_0000
  type uint32 = n: int | 0 <= n < 0x1_0000_0000
  type uint64 = n: int | 0 <= n < 0x1_0000_0000_0000_0000

  // Field numbers are positive and fit in 29 bits, so that a tag fits in 32.
  type FieldNumber = n: int | 1 <= n < 0x2000_0000 witness 1

  //////////////////////////////////////////////////////////////////////////
  // Sequences
  //////////////////////////////////////////////////////////////////////////

  lemma Assoc<T>(a: seq<T>, b: seq<T>, c: seq<T>)
    ensures (a + b) + c == a + (b + c)
  {
  }

  lemma ConcatTail<T>(a: seq<T>, b: seq<T>)
    requires a != []
    ensures (a + b)[0] == a[0] && (a + b)[1..] == a[1..] + b
  {
  }

  lemma DropPrefix<T>(a: seq<T>, b: seq<T>)
    ensures (a + b)[|a|..] == b
  {
  }

  lemma SliceOfPrefix<T>(a: seq<T>, b: seq<T>, lo: nat, hi: nat)
    requires lo <= hi <= |a|
    ensures (a + b)[lo..hi] == a[lo..hi] && (a + b)[..hi] == a[..hi]
  {
  }

  lemma DropWithin<T>(a: seq<T>, b: seq<T>, n: nat)
    requires n <= |a|
    ensures (a + b)[n..] == a[n..] + b
  {
  }

  //////////////////////////////////////////////////////////////////////////
  // Varints
  //////////////////////////////////////////////////////////////////////////

  // The shortest varint that denotes n.
  function EncodeVarint(n: nat): (s: seq<byte>)
    ensures |s| >= 1
  {
    if n < 128 then [n] else [n % 128 + 128] + EncodeVarint(n / 128)
  }

  function VarintLen(n: nat): nat { |EncodeVarint(n)| }

  // A decoded value together with the number of bytes it occupied.
  datatype Read<+T> = Read(value: T, length: nat)

  // Reads a varint of at most `max` bytes, overlong forms included.  The value
  // is not truncated here; the callers cut it to their own width.
  function DecodeVarint(s: seq<byte>, max: nat): (r: Option<Read<nat>>)
    ensures r.Some? ==> 1 <= r.value.length <= |s| && r.value.length <= max
    decreases max
  {
    if s == [] || max == 0 then None
    else if s[0] < 128 then Some(Read(s[0], 1))
    else
      match DecodeVarint(s[1..], max - 1)
      case None => None
      case Some(Read(v, n)) => Some(Read(s[0] - 128 + 128 * v, n + 1))
  }

  function Pow128(k: nat): nat { if k == 0 then 1 else 128 * Pow128(k - 1) }

  lemma {:induction false} VarintLenBound(n: nat, k: nat)
    requires 1 <= k && n < Pow128(k)
    ensures VarintLen(n) <= k
  {
    if n < 128 {
    } else {
      assert k != 1 by { assert Pow128(1) == 128 * Pow128(0); }
      VarintLenBound(n / 128, k - 1);
    }
  }

  lemma VarintLen21(n: nat)
    requires n < 0x20_0000
    ensures VarintLen(n) <= 3
  {
    assert Pow128(3) == 0x20_0000;
    VarintLenBound(n, 3);
  }

  lemma VarintLen32(n: nat)
    requires n < TWO32
    ensures VarintLen(n) <= 5
  {
    assert Pow128(5) == 0x8_0000_0000;
    VarintLenBound(n, 5);
  }

  lemma VarintLen64(n: nat)
    requires n < TWO64
    ensures VarintLen(n) <= 10
  {
    assert Pow128(10) == 0x40_0000_0000_0000_0000;
    VarintLenBound(n, 10);
  }

  lemma {:induction false} VarintLenMonotone(m: nat, n: nat)
    requires m <= n
    ensures VarintLen(m) <= VarintLen(n)
  {
    if m >= 128 { VarintLenMonotone(m / 128, n / 128); }
  }

  // Splitting a number into two positive parts never saves varint bytes.
  lemma VarintLenSubadditive(m: nat, n: nat)
    requires 1 <= m && 1 <= n
    ensures VarintLen(m + n) <= VarintLen(m) + VarintLen(n)
    decreases m + n
  {
    if m + n < 128 {
    } else if m < n {
      VarintLenDouble(n);
      VarintLenMonotone(m + n, 2 * n);
    } else {
      VarintLenDouble(m);
      VarintLenMonotone(m + n, 2 * m);
    }
  }

  lemma {:induction false} VarintLenDouble(n: nat)
    ensures VarintLen(2 * n) <= VarintLen(n) + 1
  {
    if n >= 128 {
      VarintLenDouble(n / 128);
      VarintLenMonotone((2 * n) / 128, 2 * (n / 128) + 1);
      VarintLenOdd(n / 128);
    } else if n >= 64 {
      assert (2 * n) / 128 < 128;
      assert VarintLen((2 * n) / 128) == 1;
    }
  }

  lemma VarintLenOdd(n: nat)
    ensures VarintLen(2 * n + 1) == VarintLen(2 * n)
  {
    if n >= 64 {
      assert (2 * n + 1) / 128 == (2 * n) / 128;
    }
  }

  lemma {:induction false} VarintLenAtMostValue(n: nat)
    requires 1 <= n
    ensures VarintLen(n) <= n
  {
    if n >= 128 { VarintLenAtMostValue(n / 128); }
  }

  // A reader that gets the encoding followed by anything at all returns the
  // value and stops exactly at its end.
  lemma {:induction false} VarintRoundTrip(n: nat, rest: seq<byte>, max: nat)
    requires VarintLen(n) <= max
    ensures DecodeVarint(EncodeVarint(n) + rest, max) == Some(Read(n, VarintLen(n)))
  {
    var s := EncodeVarint(n) + rest;
    if n >= 128 {
      VarintRoundTrip(n / 128, rest, max - 1);
      assert s[1..] == EncodeVarint(n / 128) + rest;
    }
  }

  // Bytes after a complete varint do not matter.
  lemma {:induction false} VarintPrefix(s: seq<byte>, t: seq<byte>, max: nat)
    requires DecodeVarint(s, max).Some?
    ensures DecodeVarint(s + t, max) == DecodeVarint(s, max)
    decreases max
  {
    if s[0] >= 128 {
      VarintPrefix(s[1..], t, max - 1);
      assert (s + t)[1..] == s[1..] + t;
    }
  }

  // The shortest form is the shortest: an accepted varint, whatever padding
  // it carries, is at least as long as the canonical one.
  lemma {:induction false} CanonicalVarintShortest(s: seq<byte>, max: nat)
    requires DecodeVarint(s, max).Some?
    ensures VarintLen(DecodeVarint(s, max).value.value) <= DecodeVarint(s, max).value.length
    decreases max
  {
    if s[0] >= 128 {
      CanonicalVarintShortest(s[1..], max - 1);
      var v := DecodeVarint(s[1..], max - 1).value.value;
      var w := s[0] - 128 + 128 * v;
      assert w / 128 == v;
    }
  }

  // What a varint means, independently of how it is written and read: its last
  // byte is the only one below 128, and the low seven bits of its bytes are
  // the base-128 digits of the value, lowest first.
  predicate OneVarint(s: seq<byte>)
  {
    s != [] && s[|s| - 1] < 128 && forall i :: 0 <= i < |s| - 1 ==> s[i] >= 128
  }

  function Digits(s: seq<byte>): nat { if s == [] then 0 else s[0] % 128 + 128 * Digits(s[1..]) }

  // What is written is a varint of the number, without a padding zero digit.
  lemma {:induction false} EncodeVarintMeaning(n: nat)
    ensures var s := EncodeVarint(n); OneVarint(s) && Digits(s) == n && (|s| > 1 ==> s[|s| - 1] != 0)
  {
    if n >= 128 {
      var s, rest := EncodeVarint(n), EncodeVarint(n / 128);
      EncodeVarintMeaning(n / 128);
      assert s[1..] == rest && s[|s| - 1] == rest[|rest| - 1];
      assert forall i :: 1 <= i < |s| ==> s[i] == rest[i - 1];
    }
  }

  // What is read is the varint at the front, if one of at most max bytes is
  // there, padded or not, and nothing otherwise.
  lemma {:induction false} DecodeVarintMeaning(s: seq<byte>, max: nat, k: nat)
    requires 0 < k <= |s| && OneVarint(s[..k])
    ensures DecodeVarint(s, max) == if k <= max then Some(Read(Digits(s[..k]), k)) else None
    decreases max
  {
    var p := s[..k];
    assert p[0] == s[0];
    if k > 1 && max > 0 {
      assert s[1..][..k - 1] == p[1..];
      DecodeVarintMeaning(s[1..], max - 1, k - 1);
    }
  }

  lemma {:induction false} NoVarint(s: seq<byte>, max: nat)
    requires forall i :: 0 <= i < |s| ==> s[i] >= 128
    ensures DecodeVarint(s, max) == None
    decreases max
  {
    if s != [] && max > 0 { NoVarint(s[1..], max - 1); }
  }

  lemma VarintExamples()
    ensures EncodeVarint(150) == [0x96, 0x01] && EncodeVarint(20000) == [0xA0, 0x9C, 0x01]
    ensures EncodeVarint(0xFFFF_FFFF) == [0xFF, 0xFF, 0xFF, 0xFF, 0x0F]
  {
    assert EncodeVarint(20000 / 128) == [0x9C, 0x01];
    assert EncodeVarint(0xFFF) == [0xFF, 0x1F];
    assert EncodeVarint(0x3_FFFF) == [0xFF, 0xFF, 0x0F];
    assert EncodeVarint(0x1FF_FFFF) == [0xFF, 0xFF, 0xFF, 0x0F];
  }

  //////////////////////////////////////////////////////////////////////////
  // Fixed-width little-endian words
  //////////////////////////////////////////////////////////////////////////

  function ToLE(v: nat, width: nat): (s: seq<byte>)
    ensures |s| == width
  {
    if width == 0 then [] else [v % 256] + ToLE(v / 256, width - 1)
  }

  function FromLE(s: seq<byte>): nat
  {
    if s == [] then 0 else s[0] + 256 * FromLE(s[1..])
  }

  function Pow256(k: nat): (p: nat)
    ensures p >= 1
  {
    if k == 0 then 1 else 256 * Pow256(k - 1)
  }

  lemma {:induction false} LERoundTrip(v: nat, width: nat)
    requires v < Pow256(width)
    ensures FromLE(ToLE(v, width)) == v
  {
    if width > 0 {
      LERoundTrip(v / 256, width - 1);
      assert ToLE(v, width)[1..] == ToLE(v / 256, width - 1);
    }
  }

  lemma {:induction false} FromLEBound(s: seq<byte>)
    ensures FromLE(s) < Pow256(|s|)
  {
    if s != [] { FromLEBound(s[1..]); }
  }

  function Fixed16(s: seq<byte>): (v: uint16)
    requires |s| == 2
  {
    FromLEBound(s);
    assert Pow256(2) == TWO16;
    FromLE(s)
  }

  function Fixed32(s: seq<byte>): (v: uint32)
    requires |s| == 4
  {
    FromLEBound(s);
    assert Pow256(4) == TWO32;
    FromLE(s)
  }

  function Fixed64(s: seq<byte>): (v: uint64)
    requires |s| == 8
  {
    FromLEBound(s);
    assert Pow256(8) == TWO64;
    FromLE(s)
  }

  // The words byte by byte, lowest first.
  lemma Fixed16Bytes(s: seq<byte>)
    requires |s| == 2
    ensures Fixed16(s) == s[0] as int + 0x100 * (s[1] as int) && ToLE(Fixed16(s), 2) == s
  {
    LEUnique(s);
    LEStep(s);
    LEStep(s[1..]);
  }

  lemma Fixed32Bytes(s: seq<byte>)
    requires |s| == 4
    ensures Fixed32(s) == s[0] as int + 0x100 * (s[1] as int) + 0x1_0000 * (s[2] as int) + 0x100_0000 * (s[3] as int)
    ensures ToLE(Fixed32(s), 4) == s
  {
    LEUnique(s);
    Fixed16Bytes(s[2..]);
    LEStep(s);
    LEStep(s[1..]);
    assert s[1..][1..] == s[2..];
  }

  lemma Fixed64Bytes(s: seq<byte>)
    requires |s| == 8
    ensures Fixed64(s) == Fixed32(s[..4]) + TWO32 * Fixed32(s[4..]) && ToLE(Fixed64(s), 8) == s
  {
    LEUnique(s);
    LESplit(s[..4], s[4..]);
    assert s[..4] + s[4..] == s;
    assert Pow256(4) == TWO32;
  }

  lemma Word16(v: uint16)
    ensures ToLE(v, 2) == [v % 256, v / 256]
  {
    Fixed16Bytes([v % 256, v / 256]);
  }

  lemma Word32(v: uint32)
    ensures ToLE(v, 4) == [v % 256, v / 0x100 % 256, v / 0x1_0000 % 256, v / 0x100_0000]
  {
    var a, b, c, d := v % 256, v / 0x100 % 256, v / 0x1_0000 % 256, v / 0x100_0000;
    BytesOfWord(v);
    Fixed32Bytes([a, b, c, d]);
  }

  lemma BytesOfWord(v: uint32)
    ensures v == v % 256 + 0x100 * (v / 0x100 % 256) + 0x1_0000 * (v / 0x1_0000 % 256) + 0x100_0000 * (v / 0x100_0000)
  {
    assert v / 0x100 == v / 0x100 % 256 + 256 * (v / 0x1_0000);
    assert v / 0x1_0000 == v / 0x1_0000 % 256 + 256 * (v / 0x100_0000);
  }

  lemma LEStep(s: seq<byte>)
    requires s != []
    ensures FromLE(s) == s[0] + 256 * FromLE(s[1..])
  {
  }

  lemma {:induction false} LESplit(a: seq<byte>, b: seq<byte>)
    ensures FromLE(a + b) == FromLE(a) + Pow256(|a|) * FromLE(b)
  {
    if a == [] {
      assert a + b == b;
    } else {
      ConcatTail(a, b);
      LESplit(a[1..], b);
      var p, x := Pow256(|a| - 1), FromLE(b);
      assert 256 * (p * x) == (256 * p) * x;
    }
  }

  lemma {:induction false} LEUnique(s: seq<byte>)
    ensures ToLE(FromLE(s), |s|) == s
  {
    if s != [] {
      var low, high := s[0], FromLE(s[1..]);
      var v := low + 256 * high;
      assert v % 256 == low && v / 256 == high;
      LEUnique(s[1..]);
      assert [low] + s[1..] == s;
    }
  }

  //////////////////////////////////////////////////////////////////////////
  // Records
  //////////////////////////////////////////////////////////////////////////

  datatype Record =
    | VarintRec(num: FieldNumber, varint: uint64)
    | Fixed64Rec(num: FieldNumber, bits64: uint64)
    | LenRec(num: FieldNumber, data: seq<byte>)
    | Fixed32Rec(num: FieldNumber, bits32: uint32)
  {
    function WireType(): nat {
      match this
      case VarintRec(_, _) => 0
      case Fixed64Rec(_, _) => 1
      case LenRec(_, _) => 2
      case Fixed32Rec(_, _) => 5
    }

    function Tag(): uint32 { 8 * num + WireType() }

    function Payload(): seq<byte> {
      match this
      case VarintRec(_, v) => EncodeVarint(v)
      case Fixed64Rec(_, b) => ToLE(b, 8)
      case LenRec(_, d) => EncodeVarint(|d|) + d
      case Fixed32Rec(_, b) => ToLE(b, 4)
    }

    function Encode(): seq<byte> { EncodeVarint(Tag()) + Payload() }

    // A length prefix is a non-negative 32-bit int.
    predicate Sized() { LenRec? ==> |data| <= INT_MAX }
  }

  // The payload of a record whose tag has been read.  Groups (3, 4) and the
  // unassigned wire types (6, 7) are refused.
  function ReadPayload(num: FieldNumber, wireType: nat, s: seq<byte>): (r: Option<Read<Record>>)
    ensures r.Some? ==> r.value.length <= |s|
    ensures r.Some? ==> r.value.value.num == num && r.value.value.WireType() == wireType
  {
    if wireType == 0 then
      match DecodeVarint(s, 10)
      case None => None
      case Some(Read(v, n)) => Some(Read(VarintRec(num, v % TWO64), n))
    else if wireType == 1 then
      if |s| < 8 then None else Some(Read(Fixed64Rec(num, Fixed64(s[..8])), 8))
    else if wireType == 2 then
      match DecodeVarint(s, 5)
      case None => None
      case Some(Read(v, n)) =>
        if v > INT_MAX || v > |s| - n then None
        else Some(Read(LenRec(num, s[n..n + v]), n + v))
    else if wireType == 5 then
      if |s| < 4 then None else Some(Read(Fixed32Rec(num, Fixed32(s[..4])), 4))
    else None
  }

  // Tags are read as 32-bit varints of at most five bytes; field number 0 is malformed.
  function ReadTag(s: seq<byte>): (r: Option<Read<nat>>)
    ensures r.Some? ==> 1 <= r.value.length <= |s| && 8 <= r.value.value < TWO32
  {
    match DecodeVarint(s, 5)
    case None => None
    case Some(Read(v, n)) => if v % TWO32 < 8 then None else Some(Read(v % TWO32, n))
  }

  function ReadRecord(s: seq<byte>): (r: Option<Read<Record>>)
    ensures r.Some? ==> 1 <= r.value.length <= |s|
  {
    match ReadTag(s)
    case None => None
    case Some(Read(tag, n)) => Shift(ReadPayload(tag / 8, tag % 8, s[n..]), n)
  }

  // A read that was preceded by n more bytes.
  function Shift<T>(r: Option<Read<T>>, n: nat): Option<Read<T>>
  {
    match r
    case None => None
    case Some(Read(v, k)) => Some(Read(v, n + k))
  }

  function EncodeRecords(rs: seq<Record>): seq<byte>
  {
    if rs == [] then [] else rs[0].Encode() + EncodeRecords(rs[1..])
  }

  function DecodeRecords(s: seq<byte>): Option<seq<Record>>
    decreases |s|
  {
    if s == [] then Some([])
    else
      match ReadRecord(s)
      case None => None
      case Some(Read(rec, n)) =>
        match DecodeRecords(s[n..])
        case None => None
        case Some(rs) => Some([rec] + rs)
  }

  predicate AllSized(rs: seq<Record>) { forall r <- rs :: r.Sized() }

  lemma VarintPayload(num: FieldNumber, v: uint64, rest: seq<byte>)
    ensures ReadPayload(num, 0, EncodeVarint(v) + rest) == Some(Read(VarintRec(num, v), VarintLen(v)))
  {
    VarintLen64(v);
    VarintRoundTrip(v, rest, 10);
  }

  lemma Fixed64Payload(num: FieldNumber, bits: uint64, rest: seq<byte>)
    ensures ReadPayload(num, 1, ToLE(bits, 8) + rest) == Some(Read(Fixed64Rec(num, bits), 8))
  {
    assert Pow256(8) == TWO64;
    LERoundTrip(bits, 8);
    assert (ToLE(bits, 8) + rest)[..8] == ToLE(bits, 8);
  }

  lemma LenAfterPrefix(num: FieldNumber, prefix: seq<byte>, d: seq<byte>, rest: seq<byte>)
    requires |d| <= INT_MAX
    requires DecodeVarint(prefix + (d + rest), 5) == Some(Read(|d|, |prefix|))
    ensures ReadPayload(num, 2, prefix + d + rest) == Some(Read(LenRec(num, d), |prefix + d|))
  {
    Assoc(prefix, d, rest);
    assert (prefix + d + rest)[|prefix|..|prefix| + |d|] == d;
  }

  lemma LenPayload(num: FieldNumber, d: seq<byte>, rest: seq<byte>)
    requires |d| <= INT_MAX
    ensures ReadPayload(num, 2, EncodeVarint(|d|) + d + rest) == Some(Read(LenRec(num, d), |EncodeVarint(|d|) + d|))
  {
    VarintLen32(|d|);
    VarintRoundTrip(|d|, d + rest, 5);
    LenAfterPrefix(num, EncodeVarint(|d|), d, rest);
  }

  lemma Fixed32Payload(num: FieldNumber, bits: uint32, rest: seq<byte>)
    ensures ReadPayload(num, 5, ToLE(bits, 4) + rest) == Some(Read(Fixed32Rec(num, bits), 4))
  {
    assert Pow256(4) == TWO32;
    LERoundTrip(bits, 4);
    assert (ToLE(bits, 4) + rest)[..4] == ToLE(bits, 4);
  }

  lemma PayloadRoundTrip(r: Record, rest: seq<byte>)
    requires r.Sized()
    ensures ReadPayload(r.num, r.WireType(), r.Payload() + rest) == Some(Read(r, |r.Payload()|))
  {
    match r
    case VarintRec(num, v) => VarintPayload(num, v, rest);
    case Fixed64Rec(num, bits) => Fixed64Payload(num, bits, rest);
    case LenRec(num, d) => LenPayload(num, d, rest);
    case Fixed32Rec(num, bits) => Fixed32Payload(num, bits, rest);
  }

  lemma TagRoundTrip(tag: uint32, rest: seq<byte>)
    requires 8 <= tag
    ensures ReadTag(EncodeVarint(tag) + rest) == Some(Read(tag, VarintLen(tag)))
  {
    assert VarintLen(tag) <= 5 by { VarintLen32(tag); }
    VarintRoundTrip(tag, rest, 5);
  }

  lemma TagParts(r: Record)
    ensures r.Tag() / 8 == r.num && r.Tag() % 8 == r.WireType() && 8 <= r.Tag()
  {
  }

  lemma RecordAfterTag(r: Record, tag: seq<byte>, p: seq<byte>, rest: seq<byte>)
    requires ReadTag(tag + (p + rest)) == Some(Read(r.Tag(), |tag|))
    requires ReadPayload(r.num, r.WireType(), p + rest) == Some(Read(r, |p|))
    ensures ReadRecord(tag + p + rest) == Some(Read(r, |tag + p|))
  {
    Assoc(tag, p, rest);
    DropPrefix(tag, p + rest);
    TagParts(r);
  }

  lemma RecordRoundTrip(r: Record, rest: seq<byte>)
    requires r.Sized()
    ensures ReadRecord(r.Encode() + rest) == Some(Read(r, |r.Encode()|))
  {
    TagParts(r);
    TagRoundTrip(r.Tag(), r.Payload() + rest);
    PayloadRoundTrip(r, rest);
    RecordAfterTag(r, EncodeVarint(r.Tag()), r.Payload(), rest);
  }

  // The bytes of a record: the tag is the field number and the wire type.
  lemma RecordBytes(num: FieldNumber, v: uint64, d: seq<byte>, bits: uint32)
    ensures VarintRec(num, v).Encode() == EncodeVarint(8 * num) + EncodeVarint(v)
    ensures Fixed64Rec(num, v).Encode() == EncodeVarint(8 * num + 1) + ToLE(v, 8)
    ensures LenRec(num, d).Encode() == EncodeVarint(8 * num + 2) + (EncodeVarint(|d|) + d)
    ensures Fixed32Rec(num, bits).Encode() == EncodeVarint(8 * num + 5) + ToLE(bits, 4)
  {
  }

  // A tag is read from the varint at the front, cut to 32 bits; it needs at
  // most five bytes and a field number that is not 0.
  lemma ReadTagMeaning(s: seq<byte>, k: nat)
    requires 0 < k <= |s| && OneVarint(s[..k])
    ensures var tag := Digits(s[..k]) % 0x1_0000_0000;
            ReadTag(s) == if k <= 5 && tag >= 8 then Some(Read(tag, k)) else None
  {
    DecodeVarintMeaning(s, 5, k);
  }

  // A number is read from the varint at the front, cut to 64 bits, and needs
  // at most ten bytes; a length needs at most five, and its bytes to be there.
  lemma ReadPayloadMeaning(num: FieldNumber, s: seq<byte>, k: nat)
    requires 0 < k <= |s| && OneVarint(s[..k])
    ensures var v := Digits(s[..k]);
            && ReadPayload(num, 0, s) ==
               (if k <= 10 then Some(Read(VarintRec(num, v % 0x1_0000_0000_0000_0000), k)) else None)
            && ReadPayload(num, 2, s) ==
               (if k <= 5 && v <= 0x7FFF_FFFF && k + v <= |s| then Some(Read(LenRec(num, s[k..k + v]), k + v))
                else None)
  {
    DecodeVarintMeaning(s, 10, k);
    DecodeVarintMeaning(s, 5, k);
  }

  // Words need all their bytes; every other wire type is refused.
  lemma ReadWordMeaning(num: FieldNumber, s: seq<byte>, other: nat)
    requires other !in {0, 1, 2, 5}
    ensures ReadPayload(num, 1, s) == if |s| < 8 then None else Some(Read(Fixed64Rec(num, Fixed64(s[..8])), 8))
    ensures ReadPayload(num, 5, s) == if |s| < 4 then None else Some(Read(Fixed32Rec(num, Fixed32(s[..4])), 4))
    ensures ReadPayload(num, other, s) == None
  {
  }

  // Printing records and reading them back is the identity.
  lemma {:induction false} RecordsRoundTrip(rs: seq<Record>)
    requires AllSized(rs)
    ensures DecodeRecords(EncodeRecords(rs)) == Some(rs)
  {
    if rs != [] {
      var s := EncodeRecords(rs);
      RecordRoundTrip(rs[0], EncodeRecords(rs[1..]));
      DropPrefix(rs[0].Encode(), EncodeRecords(rs[1..]));
      RecordsRoundTrip(rs[1..]);
      assert [rs[0]] + rs[1..] == rs;
    }
  }

  lemma {:induction false} EncodeRecordsConcat(a: seq<Record>, b: seq<Record>)
    ensures EncodeRecords(a + b) == EncodeRecords(a) + EncodeRecords(b)
  {
    if a == [] {
      assert a + b == b;
    } else {
      ConcatTail(a, b);
      EncodeRecordsConcat(a[1..], b);
      assert EncodeRecords(a + b) == a[0].Encode() + EncodeRecords(a[1..] + b);
      Assoc(a[0].Encode(), EncodeRecords(a[1..]), EncodeRecords(b));
    }
  }

  // No record of a printed list is longer than the list.
  lemma {:induction false} SizedByTotal(rs: seq<Record>)
    requires |EncodeRecords(rs)| <= INT_MAX
    ensures AllSized(rs)
  {
    if rs != [] {
      SizedByTotal(rs[1..]);
      assert rs == [rs[0]] + rs[1..];
    }
  }

  lemma PayloadPrefix(num: FieldNumber, wireType: nat, s: seq<byte>, t: seq<byte>)
    requires ReadPayload(num, wireType, s).Some?
    ensures ReadPayload(num, wireType, s + t) == ReadPayload(num, wireType, s)
  {
    if wireType == 0 {
      VarintPrefix(s, t, 10);
    } else if wireType == 1 {
      SliceOfPrefix(s, t, 0, 8);
    } else if wireType == 2 {
      VarintPrefix(s, t, 5);
      var Read(v, n) := DecodeVarint(s, 5).value;
      SliceOfPrefix(s, t, n, n + v);
    } else {
      SliceOfPrefix(s, t, 0, 4);
    }
  }

  lemma TagPrefix(s: seq<byte>, t: seq<byte>)
    requires ReadTag(s).Some?
    ensures ReadTag(s + t) == ReadTag(s)
  {
    VarintPrefix(s, t, 5);
  }

  lemma RecordPrefix(s: seq<byte>, t: seq<byte>)
    requires ReadRecord(s).Some?
    ensures ReadRecord(s + t) == ReadRecord(s)
  {
    TagPrefix(s, t);
    var Read(tag, n) := ReadTag(s).value;
    var num, wireType, rest := tag / 8, tag % 8, s[n..];
    DropWithin(s, t, n);
    PayloadPrefix(num, wireType, rest, t);
    assert ReadRecord(s) == Shift(ReadPayload(num, wireType, rest), n);
    assert ReadRecord(s + t) == Shift(ReadPayload(num, wireType, rest + t), n);
  }

  // Reading distributes over concatenation once the first part is accepted.
  lemma {:induction false} DecodeRecordsConcat(s: seq<byte>, t: seq<byte>)
    requires DecodeRecords(s).Some?
    ensures DecodeRecords(s + t) ==
            match DecodeRecords(t)
            case None => None
            case Some(rt) => Some(DecodeRecords(s).value + rt)
    decreases |s|
  {
    if s == [] {
      assert s + t == t;
      if DecodeRecords(t).Some? { assert [] + DecodeRecords(t).value == DecodeRecords(t).value; }
    } else {
      var Read(rec, n) := ReadRecord(s).value;
      RecordPrefix(s, t);
      DropWithin(s, t, n);
      DecodeRecordsConcat(s[n..], t);
      if DecodeRecords(t).Some? {
        Assoc([rec], DecodeRecords(s[n..]).value, DecodeRecords(t).value);
      }
    }
  }

  // Printing what was read never takes more bytes than were read.
  lemma ReadRecordShrinks(s: seq<byte>)
    requires ReadRecord(s).Some?
    ensures |ReadRecord(s).value.value.Encode()| <= ReadRecord(s).value.length
  {
    var Read(v, n) := DecodeVarint(s, 5).value;
    CanonicalVarintShortest(s, 5);
    VarintLenMonotone(v % TWO32, v);
    var tag := v % TWO32;
    var p := s[n..];
    if tag % 8 == 0 {
      CanonicalVarintShortest(p, 10);
      var w := DecodeVarint(p, 10).value.value;
      VarintLenMonotone(w % TWO64, w);
    } else if tag % 8 == 2 {
      CanonicalVarintShortest(p, 5);
    }
  }
}
