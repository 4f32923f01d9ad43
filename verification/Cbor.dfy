/** As much CBOR as requests are made of: maps from text to integers, strings and booleans (RFC 8949, section 3). */
module Cbor {
  import opened Bytes
  import opened Wrappers

  const UNSIGNED: nat := 0
  const BYTE_STRING: nat := 2
  const TEXT_STRING: nat := 3
  const MAP: nat := 5
  const SIMPLE: nat := 7

  const FALSE: u64 := 20
  const TRUE: u64 := 21

  // A major type and its argument, in the shortest form.
  function Head(major: nat, n: u64): (s: seq<byte>)
    requires major < 8
    ensures |s| == HeadSize(n)
  {
    if n < 24 then [major * 32 + n]
    else if n < 0x100 then [major * 32 + 24, n]
    else if n < 0x1_0000 then [major * 32 + 25] + U16Be(n)
    else if n < 0x1_0000_0000 then [major * 32 + 26] + U32Be(n)
    else [major * 32 + 27] + U64Be(n)
  }

  function HeadSize(n: u64): nat {
    if n < 24 then 1
    else if n < 0x100 then 2
    else if n < 0x1_0000 then 3
    else if n < 0x1_0000_0000 then 5
    else 9
  }

  // A string whose length fits in 64 bits.
  type Blob = s: seq<byte> | |s| < 0x1_0000_0000_0000_0000

  datatype Value =
    | Unsigned(n: u64)
    | Bytes(bytes: Blob)
    | Text(utf8: Blob)
    | Boolean(b: bool)
  {
    function Encode(): (s: seq<byte>)
      ensures |s| == Size()
    {
      match this
      case Unsigned(n) => Head(UNSIGNED, n)
      case Bytes(bytes) => Head(BYTE_STRING, |bytes|) + bytes
      case Text(utf8) => Head(TEXT_STRING, |utf8|) + utf8
      case Boolean(b) => Head(SIMPLE, if b then TRUE else FALSE)
    }

    function Size(): nat {
      match this
      case Unsigned(n) => HeadSize(n)
      case Bytes(bytes) => HeadSize(|bytes|) + |bytes|
      case Text(utf8) => HeadSize(|utf8|) + |utf8|
      case Boolean(_) => 1
    }
  }

  datatype Field = Field(key: Blob, value: Value)

  function EncodeFields(fields: seq<Field>): (s: seq<byte>)
    ensures |s| == FieldsSize(fields)
  {
    if fields == [] then []
    else Text(fields[0].key).Encode() + fields[0].value.Encode() + EncodeFields(fields[1..])
  }

  function FieldsSize(fields: seq<Field>): nat {
    if fields == [] then 0
    else Text(fields[0].key).Size() + fields[0].value.Size() + FieldsSize(fields[1..])
  }

  function EncodeMap(fields: seq<Field>): (s: seq<byte>)
    requires |fields| < 0x1_0000_0000_0000_0000
    ensures |s| == HeadSize(|fields|) + FieldsSize(fields)
  {
    Head(MAP, |fields|) + EncodeFields(fields)
  }

  // The encoding in bytes: a major type in the upper three bits, and the argument in the lower five, or in
  // one, two, four or eight bytes behind, most significant first.

  lemma HeadBytes(major: nat, n: u64)
    requires major < 8
    ensures var s := Head(major, n);
            if n < 24 then s == [32 * major + n]
            else if n < 0x100 then s == [32 * major + 24, n]
            else if n < 0x1_0000 then |s| == 3 && s[0] == 32 * major + 25 && Two(s[1], s[2]) == n
            else if n < 0x1_0000_0000 then |s| == 5 && s[0] == 32 * major + 26 && Four(s[1], s[2], s[3], s[4]) == n
            else && |s| == 9 && s[0] == 32 * major + 27
                 && 0x1_0000_0000 * Four(s[1], s[2], s[3], s[4]) + Four(s[5], s[6], s[7], s[8]) == n
  {
    hide U16Be, U32Be, Two, Four, FromU16Be, FromU32Be, U64Be;
    if n < 0x1_0000 {
      BigEndianBytes(n, 0, []);
    } else if n < 0x1_0000_0000 {
      BigEndianBytes(0, n, []);
    } else {
      var hi, lo := n / 0x1_0000_0000, n % 0x1_0000_0000;
      BigEndianBytes(0, hi, []);
      BigEndianBytes(0, lo, []);
      BigEndian64(hi, lo);
    }
  }

  // The major types, and the two simple values.
  lemma ValueBytes(n: u64, bytes: Blob)
    ensures Unsigned(n).Encode() == Head(0, n)
    ensures Value.Bytes(bytes).Encode() == Head(2, |bytes|) + bytes
    ensures Text(bytes).Encode() == Head(3, |bytes|) + bytes
    ensures Boolean(false).Encode() == [0xf4] && Boolean(true).Encode() == [0xf5]
  {
  }

  lemma MapBytes(fields: seq<Field>)
    requires |fields| < 0x1_0000_0000_0000_0000
    ensures EncodeMap(fields) == Head(5, |fields|) + EncodeFields(fields)
    ensures EncodeFields([]) == []
    ensures fields != [] ==>
            EncodeFields(fields) == Head(3, |fields[0].key|) + fields[0].key + fields[0].value.Encode() + EncodeFields(fields[1..])
  {
    hide Head;
  }

  // Decoding.

  datatype HeadScan = HeadScan(major: nat, n: u64, rest: seq<byte>)

  function DecodeHead(s: seq<byte>): (h: Option<HeadScan>)
    ensures h.Some? ==> |h.value.rest| < |s|
  {
    if s == [] then None
    else
      var major, info := s[0] / 32, s[0] % 32;
      if info < 24 then Some(HeadScan(major, info, s[1..]))
      else if info == 24 && |s| >= 2 then Some(HeadScan(major, s[1], s[2..]))
      else if info == 25 && |s| >= 3 then Some(HeadScan(major, FromU16Be(s[1], s[2]), s[3..]))
      else if info == 26 && |s| >= 5 then Some(HeadScan(major, FromU32Be(s[1..5]), s[5..]))
      else if info == 27 && |s| >= 9 then Some(HeadScan(major, FromU64Be(s[1..9]), s[9..]))
      else None
  }

  function DecodeValue(s: seq<byte>): (v: Option<(Value, seq<byte>)>)
    ensures v.Some? ==> |v.value.1| < |s|
  {
    match DecodeHead(s)
    case None => None
    case Some(h) =>
      if h.major == UNSIGNED then Some((Unsigned(h.n), h.rest))
      else if h.major == BYTE_STRING && h.n <= |h.rest| then Some((Bytes(h.rest[..h.n]), h.rest[h.n..]))
      else if h.major == TEXT_STRING && h.n <= |h.rest| then Some((Text(h.rest[..h.n]), h.rest[h.n..]))
      else if h.major == SIMPLE && h.n == TRUE then Some((Boolean(true), h.rest))
      else if h.major == SIMPLE && h.n == FALSE then Some((Boolean(false), h.rest))
      else None
  }

  function DecodeFields(s: seq<byte>, n: nat): Option<(seq<Field>, seq<byte>)>
    decreases n
  {
    if n == 0 then Some(([], s))
    else
      match DecodeValue(s)
      case Some((Text(key), afterKey)) =>
        (match DecodeValue(afterKey)
         case Some((value, afterValue)) =>
           (match DecodeFields(afterValue, n - 1)
            case Some((more, rest)) => Some(([Field(key, value)] + more, rest))
            case None => None)
         case None => None)
      case _ => None
  }

  function DecodeMap(s: seq<byte>): Option<(seq<Field>, seq<byte>)> {
    match DecodeHead(s)
    case Some(h) => if h.major == MAP then DecodeFields(h.rest, h.n) else None
    case None => None
  }

  lemma HeadRoundTrip(major: nat, n: u64, rest: seq<byte>)
    requires major < 8
    ensures DecodeHead(Head(major, n) + rest) == Some(HeadScan(major, n, rest))
  {
    hide U32Be, U64Be, FromU32Be, FromU64Be;
    var s := Head(major, n) + rest;
    assert s[HeadSize(n)..] == rest;
    FirstByte(major, s[0] - major * 32);
    if n < 0x1_0000 {
    } else if n < 0x1_0000_0000 {
      U32BeRoundTrip(n);
      assert s[1..5] == U32Be(n);
    } else {
      U64BeRoundTrip(n);
      assert s[1..9] == U64Be(n);
    }
  }

  lemma FirstByte(major: nat, info: nat)
    requires major < 8 && info < 32
    ensures (major * 32 + info) / 32 == major && (major * 32 + info) % 32 == info
  {
  }

  lemma ValueRoundTrip(v: Value, rest: seq<byte>)
    ensures DecodeValue(v.Encode() + rest) == Some((v, rest))
  {
    hide Head, DecodeHead;
    match v
    case Unsigned(n) => HeadRoundTrip(UNSIGNED, n, rest);
    case Boolean(b) => HeadRoundTrip(SIMPLE, if b then TRUE else FALSE, rest);
    case Bytes(bytes) =>
      HeadRoundTrip(BYTE_STRING, |bytes|, bytes + rest);
      assert v.Encode() + rest == Head(BYTE_STRING, |bytes|) + (bytes + rest);
    case Text(utf8) =>
      HeadRoundTrip(TEXT_STRING, |utf8|, utf8 + rest);
      assert v.Encode() + rest == Head(TEXT_STRING, |utf8|) + (utf8 + rest);
  }

  lemma {:induction false} FieldsRoundTrip(fields: seq<Field>, rest: seq<byte>)
    ensures DecodeFields(EncodeFields(fields) + rest, |fields|) == Some((fields, rest))
  {
    hide DecodeValue, Value.Encode, Value.Size;
    if fields == [] {
      assert EncodeFields(fields) + rest == rest;
    } else {
      var key, value, more := Text(fields[0].key), fields[0].value, EncodeFields(fields[1..]);
      FieldsRoundTrip(fields[1..], rest);
      ValueRoundTrip(value, more + rest);
      ValueRoundTrip(key, value.Encode() + (more + rest));
      assert EncodeFields(fields) + rest == key.Encode() + (value.Encode() + (more + rest));
      assert [fields[0]] + fields[1..] == fields;
    }
  }

  // Encoded maps are self-delimiting and can be read back.
  lemma MapRoundTrip(fields: seq<Field>, rest: seq<byte>)
    requires |fields| < 0x1_0000_0000_0000_0000
    ensures DecodeMap(EncodeMap(fields) + rest) == Some((fields, rest))
  {
    hide Head, DecodeHead;
    HeadRoundTrip(MAP, |fields|, EncodeFields(fields) + rest);
    FieldsRoundTrip(fields, rest);
    assert EncodeMap(fields) + rest == Head(MAP, |fields|) + (EncodeFields(fields) + rest);
  }
}
