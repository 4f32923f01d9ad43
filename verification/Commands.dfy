/** The two upload requests as bytes, and how much data fits into one of them. */
module Commands {
  import opened Bytes
  import opened Wrappers
  import opened Cbor

  const SMP_HEADER_SIZE: nat := 8
  const U32_MAX: u32 := 0xffff_ffff
  const U64_MAX: u64 := 0xffff_ffff_ffff_ffff

  // Field names, in ASCII.
  function ImageKey(): Blob { [0x69, 0x6d, 0x61, 0x67, 0x65] }
  function LenKey(): Blob { [0x6c, 0x65, 0x6e] }
  function OffKey(): Blob { [0x6f, 0x66, 0x66] }
  function ShaKey(): Blob { [0x73, 0x68, 0x61] }
  function DataKey(): Blob { [0x64, 0x61, 0x74, 0x61] }
  function UpgradeKey(): Blob { [0x75, 0x70, 0x67, 0x72, 0x61, 0x64, 0x65] }
  function NameKey(): Blob { [0x6e, 0x61, 0x6d, 0x65] }

  type Hash = s: seq<byte> | |s| == 32 witness seq(32, i => 0)

  function Optional(key: Blob, value: Option<Value>): seq<Field> {
    match value
    case Some(v) => [Field(key, v)]
    case None => []
  }

  datatype ImageUpload = ImageUpload(
    image: Option<u32>,
    len: Option<u64>,
    off: u64,
    sha: Option<Hash>,
    data: Blob,
    upgrade: Option<bool>
  ) {
    function Fields(): (fields: seq<Field>)
      ensures |fields| <= 6
    {
      Optional(ImageKey(), if image.Some? then Some(Unsigned(image.value)) else None)
      + Optional(LenKey(), if len.Some? then Some(Unsigned(len.value)) else None)
      + [Field(OffKey(), Unsigned(off))]
      + Optional(ShaKey(), if sha.Some? then Some(Value.Bytes(sha.value)) else None)
      + [Field(DataKey(), Value.Bytes(data))]
      + Optional(UpgradeKey(), if upgrade.Some? then Some(Boolean(upgrade.value)) else None)
    }

    function Encode(): seq<byte> {
      EncodeMap(Fields())
    }

    // One byte for the map, and for each field its name with a one-byte head and its value.
    function Size(): nat {
      1
      + (if image.Some? then 6 + HeadSize(image.value) else 0)
      + (if len.Some? then 4 + HeadSize(len.value) else 0)
      + 4 + HeadSize(off)
      + (if sha.Some? then 38 else 0)
      + 5 + HeadSize(|data|) + |data|
      + (if upgrade.Some? then 9 else 0)
    }
  }

  datatype FileUpload = FileUpload(off: u64, data: Blob, name: Blob, len: Option<u64>) {
    function Fields(): (fields: seq<Field>)
      ensures |fields| <= 6
    {
      [Field(OffKey(), Unsigned(off)), Field(DataKey(), Value.Bytes(data)), Field(NameKey(), Text(name))]
      + Optional(LenKey(), if len.Some? then Some(Unsigned(len.value)) else None)
    }

    function Encode(): seq<byte> {
      EncodeMap(Fields())
    }

    function Size(): nat {
      1
      + 4 + HeadSize(off)
      + 5 + HeadSize(|data|) + |data|
      + 5 + HeadSize(|name|) + |name|
      + (if len.Some? then 4 + HeadSize(len.value) else 0)
    }
  }

  lemma {:induction false} FieldsSizeAppend(a: seq<Field>, b: seq<Field>)
    ensures FieldsSize(a + b) == FieldsSize(a) + FieldsSize(b)
  {
    hide Value.Size;
    if a == [] {
      assert a + b == b;
    } else {
      assert (a + b)[1..] == a[1..] + b;
      FieldsSizeAppend(a[1..], b);
    }
  }

  lemma OptionalSize(key: Blob, value: Option<Value>)
    ensures FieldsSize(Optional(key, value)) == if value.Some? then Text(key).Size() + value.value.Size() else 0
  {
    if value.Some? {
      assert Optional(key, value)[1..] == [];
    }
  }

  lemma ImageUploadSize(u: ImageUpload)
    ensures |u.Encode()| == u.Size()
  {
    hide FieldsSize, Optional, Value.Size, HeadSize, ImageKey, LenKey, OffKey, ShaKey, DataKey, UpgradeKey;
    KeySizes();
    ValueSizes(u);
    assert HeadSize(|u.Fields()|) == 1 by { SmallHead(|u.Fields()|); }
    var imageValue := if u.image.Some? then Some(Unsigned(u.image.value)) else None;
    var lenValue := if u.len.Some? then Some(Unsigned(u.len.value)) else None;
    var shaValue := if u.sha.Some? then Some(Value.Bytes(u.sha.value)) else None;
    var upgradeValue := if u.upgrade.Some? then Some(Boolean(u.upgrade.value)) else None;
    var image, len := Optional(ImageKey(), imageValue), Optional(LenKey(), lenValue);
    var off := [Field(OffKey(), Unsigned(u.off))];
    var sha := Optional(ShaKey(), shaValue);
    var data := [Field(DataKey(), Value.Bytes(u.data))];
    var upgrade := Optional(UpgradeKey(), upgradeValue);
    FieldsSizeAppend(image + len + off + sha + data, upgrade);
    FieldsSizeAppend(image + len + off + sha, data);
    FieldsSizeAppend(image + len + off, sha);
    FieldsSizeAppend(image + len, off);
    FieldsSizeAppend(image, len);
    OptionalSize(ImageKey(), imageValue);
    OptionalSize(LenKey(), lenValue);
    FieldSize(OffKey(), Unsigned(u.off));
    OptionalSize(ShaKey(), shaValue);
    FieldSize(DataKey(), Value.Bytes(u.data));
    OptionalSize(UpgradeKey(), upgradeValue);
  }

  lemma SmallHead(n: u64)
    ensures n < 24 ==> HeadSize(n) == 1
  {
  }

  lemma KeySizes()
    ensures Text(ImageKey()).Size() == 6 && Text(LenKey()).Size() == 4 && Text(OffKey()).Size() == 4
    ensures Text(ShaKey()).Size() == 4 && Text(DataKey()).Size() == 5 && Text(UpgradeKey()).Size() == 8
  {
  }

  lemma ValueSizes(u: ImageUpload)
    ensures u.image.Some? ==> Unsigned(u.image.value).Size() == HeadSize(u.image.value)
    ensures u.len.Some? ==> Unsigned(u.len.value).Size() == HeadSize(u.len.value)
    ensures Unsigned(u.off).Size() == HeadSize(u.off)
    ensures u.sha.Some? ==> Value.Bytes(u.sha.value).Size() == 34
    ensures Value.Bytes(u.data).Size() == HeadSize(|u.data|) + |u.data|
    ensures u.upgrade.Some? ==> Boolean(u.upgrade.value).Size() == 1
  {
  }

  lemma FieldSize(key: Blob, value: Value)
    ensures FieldsSize([Field(key, value)]) == Text(key).Size() + value.Size()
  {
    assert [Field(key, value)][1..] == [];
  }

  lemma FileUploadSize(u: FileUpload)
    ensures |u.Encode()| == u.Size()
  {
    hide FieldsSize, Optional;
    var lenValue := if u.len.Some? then Some(Unsigned(u.len.value)) else None;
    var off, data := [Field(OffKey(), Unsigned(u.off))], [Field(DataKey(), Value.Bytes(u.data))];
    var name, len := [Field(NameKey(), Text(u.name))], Optional(LenKey(), lenValue);
    assert u.Fields() == off + data + name + len;
    FieldsSizeAppend(off + data + name, len);
    FieldsSizeAppend(off + data, name);
    FieldsSizeAppend(off, data);
    FieldSize(OffKey(), Unsigned(u.off));
    FieldSize(DataKey(), Value.Bytes(u.data));
    FieldSize(NameKey(), Text(u.name));
    OptionalSize(LenKey(), lenValue);
  }

  // What a request says: the value of each key, if the map has it.

  function Get(fields: seq<Field>, key: Blob): Option<Value> {
    if fields == [] then None
    else if fields[0].key == key then Some(fields[0].value)
    else Get(fields[1..], key)
  }

  lemma {:induction false} GetAppend(a: seq<Field>, b: seq<Field>, key: Blob)
    ensures Get(a + b, key) == if Get(a, key).Some? then Get(a, key) else Get(b, key)
  {
    if a == [] {
      assert a + b == b;
    } else {
      assert (a + b)[1..] == a[1..] + b;
      GetAppend(a[1..], b, key);
    }
  }

  lemma GetOptional(key: Blob, value: Option<Value>, other: Blob)
    ensures Get(Optional(key, value), other) == if other == key then value else None
  {
    if value.Some? {
      assert Optional(key, value)[1..] == [];
    }
  }

  lemma Get3(a: seq<Field>, b: seq<Field>, c: seq<Field>, key: Blob)
    ensures Get(a + b + c, key)
         == if Get(a, key).Some? then Get(a, key) else if Get(b, key).Some? then Get(b, key) else Get(c, key)
  {
    GetAppend(a + b, c, key);
    GetAppend(a, b, key);
  }

  // "image", "len", "off", "sha", "data" and "upgrade" with their values; optional ones only if present.
  ghost predicate SaysImageUpload(fields: seq<Field>, u: ImageUpload) {
    && Get(fields, [0x69, 0x6d, 0x61, 0x67, 0x65]) == (if u.image.Some? then Some(Unsigned(u.image.value)) else None)
    && Get(fields, [0x6c, 0x65, 0x6e]) == (if u.len.Some? then Some(Unsigned(u.len.value)) else None)
    && Get(fields, [0x6f, 0x66, 0x66]) == Some(Unsigned(u.off))
    && Get(fields, [0x73, 0x68, 0x61]) == (if u.sha.Some? then Some(Value.Bytes(u.sha.value)) else None)
    && Get(fields, [0x64, 0x61, 0x74, 0x61]) == Some(Value.Bytes(u.data))
    && Get(fields, [0x75, 0x70, 0x67, 0x72, 0x61, 0x64, 0x65])
       == (if u.upgrade.Some? then Some(Boolean(u.upgrade.value)) else None)
    && forall key: Blob :: Get(fields, key).Some? ==>
         || key == [0x69, 0x6d, 0x61, 0x67, 0x65] || key == [0x6c, 0x65, 0x6e] || key == [0x6f, 0x66, 0x66]
         || key == [0x73, 0x68, 0x61] || key == [0x64, 0x61, 0x74, 0x61]
         || key == [0x75, 0x70, 0x67, 0x72, 0x61, 0x64, 0x65]
  }

  // "off", "data", "name" and "len".
  ghost predicate SaysFileUpload(fields: seq<Field>, u: FileUpload) {
    && Get(fields, [0x6f, 0x66, 0x66]) == Some(Unsigned(u.off))
    && Get(fields, [0x64, 0x61, 0x74, 0x61]) == Some(Value.Bytes(u.data))
    && Get(fields, [0x6e, 0x61, 0x6d, 0x65]) == Some(Text(u.name))
    && Get(fields, [0x6c, 0x65, 0x6e]) == (if u.len.Some? then Some(Unsigned(u.len.value)) else None)
    && forall key: Blob :: Get(fields, key).Some? ==>
         || key == [0x6f, 0x66, 0x66] || key == [0x64, 0x61, 0x74, 0x61] || key == [0x6e, 0x61, 0x6d, 0x65]
         || key == [0x6c, 0x65, 0x6e]
  }

  lemma KeysDiffer()
    ensures ImageKey() == [0x69, 0x6d, 0x61, 0x67, 0x65] && LenKey() == [0x6c, 0x65, 0x6e] && OffKey() == [0x6f, 0x66, 0x66]
    ensures ShaKey() == [0x73, 0x68, 0x61] && DataKey() == [0x64, 0x61, 0x74, 0x61]
    ensures UpgradeKey() == [0x75, 0x70, 0x67, 0x72, 0x61, 0x64, 0x65] && NameKey() == [0x6e, 0x61, 0x6d, 0x65]
    ensures |ImageKey()| == 5 && |LenKey()| == |OffKey()| == |ShaKey()| == 3
    ensures |DataKey()| == |NameKey()| == 4 && |UpgradeKey()| == 7
    ensures LenKey() != OffKey() && LenKey() != ShaKey() && OffKey() != ShaKey() && DataKey() != NameKey()
  {
    assert LenKey()[0] != OffKey()[0] && LenKey()[0] != ShaKey()[0] && OffKey()[0] != ShaKey()[0];
    assert DataKey()[0] != NameKey()[0];
  }

  // Any key of an image upload request, in the order of the fields.
  lemma GetImageField(u: ImageUpload, key: Blob)
    ensures Get(u.Fields(), key) ==
      if key == ImageKey() && u.image.Some? then Some(Unsigned(u.image.value))
      else if key == LenKey() && u.len.Some? then Some(Unsigned(u.len.value))
      else if key == OffKey() then Some(Unsigned(u.off))
      else if key == ShaKey() && u.sha.Some? then Some(Value.Bytes(u.sha.value))
      else if key == DataKey() then Some(Value.Bytes(u.data))
      else if key == UpgradeKey() && u.upgrade.Some? then Some(Boolean(u.upgrade.value))
      else None
  {
    hide Get, Optional, ImageKey, LenKey, OffKey, ShaKey, DataKey, UpgradeKey;
    var imageValue := if u.image.Some? then Some(Unsigned(u.image.value)) else None;
    var lenValue := if u.len.Some? then Some(Unsigned(u.len.value)) else None;
    var shaValue := if u.sha.Some? then Some(Value.Bytes(u.sha.value)) else None;
    var upgradeValue := if u.upgrade.Some? then Some(Boolean(u.upgrade.value)) else None;
    var a, b, c := Optional(ImageKey(), imageValue), Optional(LenKey(), lenValue), [Field(OffKey(), Unsigned(u.off))];
    var d, e, f := Optional(ShaKey(), shaValue), [Field(DataKey(), Value.Bytes(u.data))], Optional(UpgradeKey(), upgradeValue);
    Get3(a + b + c, d, e, key);
    Get3(a, b, c, key);
    GetAppend(a + b + c + d + e, f, key);
    GetOptional(ImageKey(), imageValue, key);
    GetOptional(LenKey(), lenValue, key);
    GetOne(OffKey(), Unsigned(u.off), key);
    GetOptional(ShaKey(), shaValue, key);
    GetOne(DataKey(), Value.Bytes(u.data), key);
    GetOptional(UpgradeKey(), upgradeValue, key);
  }

  lemma GetOne(key: Blob, value: Value, other: Blob)
    ensures Get([Field(key, value)], other) == if other == key then Some(value) else None
  {
    assert [Field(key, value)][1..] == [];
  }

  lemma GetFileField(u: FileUpload, key: Blob)
    ensures Get(u.Fields(), key) ==
      if key == OffKey() then Some(Unsigned(u.off))
      else if key == DataKey() then Some(Value.Bytes(u.data))
      else if key == NameKey() then Some(Text(u.name))
      else if key == LenKey() && u.len.Some? then Some(Unsigned(u.len.value))
      else None
  {
    hide Get, Optional, OffKey, DataKey, NameKey, LenKey;
    var lenValue := if u.len.Some? then Some(Unsigned(u.len.value)) else None;
    var a, b := [Field(OffKey(), Unsigned(u.off))], [Field(DataKey(), Value.Bytes(u.data))];
    var c, d := [Field(NameKey(), Text(u.name))], Optional(LenKey(), lenValue);
    assert u.Fields() == a + b + c + d;
    GetAppend(a + b + c, d, key);
    Get3(a, b, c, key);
    GetOne(OffKey(), Unsigned(u.off), key);
    GetOne(DataKey(), Value.Bytes(u.data), key);
    GetOne(NameKey(), Text(u.name), key);
    GetOptional(LenKey(), lenValue, key);
  }

  // An encoded request reads back as what it was made of, and says nothing else.
  lemma ImageUploadReadsBack(u: ImageUpload)
    ensures DecodeMap(u.Encode()).Some?
    ensures var (fields, rest) := DecodeMap(u.Encode()).value;
            && rest == [] && SaysImageUpload(fields, u)
            && |fields| == 2 + (if u.image.Some? then 1 else 0) + (if u.len.Some? then 1 else 0)
                             + (if u.sha.Some? then 1 else 0) + (if u.upgrade.Some? then 1 else 0)
  {
    hide EncodeMap, DecodeMap, Get, ImageKey, LenKey, OffKey, ShaKey, DataKey, UpgradeKey, NameKey;
    MapRoundTrip(u.Fields(), []);
    assert u.Encode() + [] == u.Encode();
    KeysDiffer();
    GetImageField(u, ImageKey());
    GetImageField(u, LenKey());
    GetImageField(u, OffKey());
    GetImageField(u, ShaKey());
    GetImageField(u, DataKey());
    GetImageField(u, UpgradeKey());
    forall key: Blob { GetImageField(u, key); }
  }

  lemma FileUploadReadsBack(u: FileUpload)
    ensures DecodeMap(u.Encode()).Some?
    ensures var (fields, rest) := DecodeMap(u.Encode()).value;
            rest == [] && SaysFileUpload(fields, u) && |fields| == 3 + if u.len.Some? then 1 else 0
  {
    hide EncodeMap, DecodeMap, Get, ImageKey, LenKey, OffKey, ShaKey, DataKey, UpgradeKey, NameKey;
    MapRoundTrip(u.Fields(), []);
    assert u.Encode() + [] == u.Encode();
    KeysDiffer();
    GetFileField(u, OffKey());
    GetFileField(u, DataKey());
    GetFileField(u, NameKey());
    GetFileField(u, LenKey());
    forall key: Blob { GetFileField(u, key); }
  }

  // So different requests have different encodings.
  lemma UploadsAreInjective(u: ImageUpload, v: ImageUpload, f: FileUpload, g: FileUpload)
    ensures u.Encode() == v.Encode() ==> u == v
    ensures f.Encode() == g.Encode() ==> f == g
  {
    hide ImageUpload.Encode, FileUpload.Encode, DecodeMap, Get;
    ImageUploadReadsBack(u);
    ImageUploadReadsBack(v);
    FileUploadReadsBack(f);
    FileUploadReadsBack(g);
  }

  // How much data fits.

  // The arithmetic both requests share, given the size of the request without its data.
  function DataCapacity(frameSize: u64, sizeWithoutData: nat): Option<u64> {
    if frameSize < SMP_HEADER_SIZE || frameSize - SMP_HEADER_SIZE < sizeWithoutData then None
    else
      var estimated := frameSize - SMP_HEADER_SIZE - sizeWithoutData;
      if estimated == 0 then None
      else
        var lengthBytes := LengthBytes(estimated);
        if estimated <= lengthBytes then None else Some(estimated - lengthBytes)
  }

  function LengthBytes(estimated: u64): nat {
    if estimated <= 0xff then 1 else if estimated <= 0xffff then 2 else if estimated <= U32_MAX then 4 else 8
  }

  // The largest message with the given data: every field present, every number at its maximum.
  function WorstImageUpload(data: Blob): ImageUpload {
    ImageUpload(Some(U32_MAX), Some(U64_MAX), U64_MAX, Some(seq(32, i => 42)), data, Some(true))
  }

  function WorstFileUpload(name: Blob, data: Blob): FileUpload {
    FileUpload(U64_MAX, data, name, Some(U64_MAX))
  }

  function ImageUploadMaxDataChunkSize(frameSize: u64): Option<u64> {
    var sizeWithOneByte := |WorstImageUpload([0]).Encode()|;
    DataCapacity(frameSize, sizeWithOneByte - 1)
  }

  function FileUploadMaxDataChunkSize(frameSize: u64, name: Blob): Option<u64> {
    var sizeWithOneByte := |WorstFileUpload(name, [0]).Encode()|;
    DataCapacity(frameSize, sizeWithOneByte - 1)
  }

  // The size of a frame whose message has `fixed` bytes besides a byte string of length n.
  function FrameWith(fixed: nat, n: u64): nat {
    SMP_HEADER_SIZE + fixed + HeadSize(n) + n
  }

  lemma FrameWithMonotone(fixed: nat, m: u64, n: u64)
    requires m <= n
    ensures FrameWith(fixed, m) <= FrameWith(fixed, n)
  {
  }

  // There is a capacity exactly if two bytes remain; it fits, wastes at most four bytes, and at most two
  // below 2^32; and nothing more than four bytes larger would fit.
  lemma CapacityIsGood(frameSize: u64, fixed: nat)
    ensures DataCapacity(frameSize, fixed + 1).Some? <==> frameSize >= SMP_HEADER_SIZE + fixed + 1 + 2
    ensures DataCapacity(frameSize, fixed + 1).Some? ==>
            && var n := DataCapacity(frameSize, fixed + 1).value;
            && 0 < n && FrameWith(fixed, n) <= frameSize <= FrameWith(fixed, n) + 4
            && (frameSize - SMP_HEADER_SIZE - fixed - 1 <= U32_MAX ==> frameSize <= FrameWith(fixed, n) + 2)
            && forall m: u64 :: FrameWith(fixed, m) <= frameSize ==> m <= n + 4
  {
  }

  lemma CapacityFits(frameSize: u64, fixed: nat)
    ensures DataCapacity(frameSize, fixed + 1).Some? ==>
            FrameWith(fixed, DataCapacity(frameSize, fixed + 1).value) <= frameSize
  {
    CapacityIsGood(frameSize, fixed);
  }

  // It is the largest possible capacity except in four short ranges of frame sizes.
  lemma CapacityIsOptimal(frameSize: u64, fixed: nat)
    requires DataCapacity(frameSize, fixed + 1).Some?
    ensures var n, estimated := DataCapacity(frameSize, fixed + 1).value, frameSize - SMP_HEADER_SIZE - fixed - 1;
            (forall m: u64 :: FrameWith(fixed, m) <= frameSize ==> m <= n) <==>
            !(|| estimated < 24 || estimated == 0x100
              || 0x1_0000 <= estimated <= 0x1_0002 || 0x1_0000_0000 <= estimated <= 0x1_0000_0006)
  {
    var n := DataCapacity(frameSize, fixed + 1).value;
    assert FrameWith(fixed, n + 1) <= frameSize || forall m: u64 :: m > n ==> FrameWith(fixed, m) > frameSize;
  }

  // It shrinks when the frame grows by a byte at exactly two sizes.
  lemma CapacityIsNotMonotone(frameSize: u64, fixed: nat)
    requires frameSize < U64_MAX
    requires DataCapacity(frameSize, fixed + 1).Some?
    ensures DataCapacity(frameSize + 1, fixed + 1).Some?
    ensures DataCapacity(frameSize + 1, fixed + 1).value < DataCapacity(frameSize, fixed + 1).value <==>
            || frameSize - SMP_HEADER_SIZE - fixed - 1 == 0xffff
            || frameSize - SMP_HEADER_SIZE - fixed - 1 == U32_MAX
  {
  }

  // The sizes behind the two functions, in bytes of the encoding.

  const IMAGE_FIXED: nat := 90

  function FileFixed(name: Blob): nat {
    37 + HeadSize(|name|) + |name|
  }

  lemma WorstSizes(name: Blob, data: Blob)
    ensures SMP_HEADER_SIZE + |WorstImageUpload(data).Encode()| == FrameWith(IMAGE_FIXED, |data|)
    ensures SMP_HEADER_SIZE + |WorstFileUpload(name, data).Encode()| == FrameWith(FileFixed(name), |data|)
  {
    hide ImageUpload.Encode, FileUpload.Encode;
    ImageUploadSize(WorstImageUpload(data));
    FileUploadSize(WorstFileUpload(name, data));
  }

  lemma ChunkSizesAreCapacities(frameSize: u64, name: Blob)
    ensures ImageUploadMaxDataChunkSize(frameSize) == DataCapacity(frameSize, IMAGE_FIXED + 1)
    ensures FileUploadMaxDataChunkSize(frameSize, name) == DataCapacity(frameSize, FileFixed(name) + 1)
  {
    hide ImageUpload.Encode, FileUpload.Encode, DataCapacity;
    WorstSizes(name, [0]);
  }

  // Whatever is left out of a request or smaller in it, it fits into the frame.
  lemma ImageRequestFits(frameSize: u64, u: ImageUpload)
    requires ImageUploadMaxDataChunkSize(frameSize).Some?
    requires |u.data| <= ImageUploadMaxDataChunkSize(frameSize).value
    ensures SMP_HEADER_SIZE + |u.Encode()| <= frameSize
  {
    hide ImageUpload.Encode, ImageUploadMaxDataChunkSize, DataCapacity;
    ChunkSizesAreCapacities(frameSize, []);
    CapacityFits(frameSize, IMAGE_FIXED);
    ImageUploadSize(u);
    FrameWithMonotone(IMAGE_FIXED, |u.data|, ImageUploadMaxDataChunkSize(frameSize).value);
    assert SMP_HEADER_SIZE + u.Size() <= FrameWith(IMAGE_FIXED, |u.data|);
  }

  lemma FileSizeBound(u: FileUpload)
    ensures SMP_HEADER_SIZE + u.Size() <= FrameWith(FileFixed(u.name), |u.data|)
  {
  }

  lemma FileRequestFits(frameSize: u64, u: FileUpload)
    requires FileUploadMaxDataChunkSize(frameSize, u.name).Some?
    requires |u.data| <= FileUploadMaxDataChunkSize(frameSize, u.name).value
    ensures SMP_HEADER_SIZE + |u.Encode()| <= frameSize
  {
    hide *;
    var n, fixed := FileUploadMaxDataChunkSize(frameSize, u.name).value, FileFixed(u.name);
    assert FrameWith(fixed, n) <= frameSize by {
      ChunkSizesAreCapacities(frameSize, u.name);
      CapacityFits(frameSize, fixed);
    }
    FrameWithMonotone(fixed, |u.data|, n);
    FileSizeBound(u);
    FileUploadSize(u);
  }

  // The worst-case image message with as much data as the function allows fills the frame up to four bytes,
  // up to two below 2^32, and no message with five bytes more data fits.
  lemma ImageChunkSize(frameSize: u64, data: Blob, more: Blob)
    ensures ImageUploadMaxDataChunkSize(frameSize).Some? <==> frameSize >= 101
    ensures ImageUploadMaxDataChunkSize(frameSize) == Some(|data|) ==>
            && data != []
            && frameSize - 4 <= SMP_HEADER_SIZE + |WorstImageUpload(data).Encode()| <= frameSize
            && (frameSize <= U32_MAX ==> frameSize - 2 <= SMP_HEADER_SIZE + |WorstImageUpload(data).Encode()|)
            && (|more| > |data| + 4 ==> SMP_HEADER_SIZE + |WorstImageUpload(more).Encode()| > frameSize)
  {
    hide ImageUpload.Encode, ImageUploadMaxDataChunkSize, DataCapacity;
    ChunkSizesAreCapacities(frameSize, []);
    CapacityIsGood(frameSize, IMAGE_FIXED);
    WorstSizes([], data);
    WorstSizes([], more);
    assert FrameWith(IMAGE_FIXED, |more|) > frameSize || |more| <= frameSize;
  }

  lemma FileChunkSize(frameSize: u64, name: Blob, data: Blob, more: Blob)
    ensures FileUploadMaxDataChunkSize(frameSize, name).Some? <==> frameSize >= 48 + HeadSize(|name|) + |name|
    ensures FileUploadMaxDataChunkSize(frameSize, name) == Some(|data|) ==>
            && data != []
            && frameSize - 4 <= SMP_HEADER_SIZE + |WorstFileUpload(name, data).Encode()| <= frameSize
            && (frameSize <= U32_MAX ==> frameSize - 2 <= SMP_HEADER_SIZE + |WorstFileUpload(name, data).Encode()|)
            && (|more| > |data| + 4 ==> SMP_HEADER_SIZE + |WorstFileUpload(name, more).Encode()| > frameSize)
  {
    hide FileUpload.Encode, FileUploadMaxDataChunkSize, DataCapacity;
    ChunkSizesAreCapacities(frameSize, name);
    CapacityIsGood(frameSize, FileFixed(name));
    WorstSizes(name, data);
    WorstSizes(name, more);
    assert FrameWith(FileFixed(name), |more|) > frameSize || |more| <= frameSize;
  }
}
