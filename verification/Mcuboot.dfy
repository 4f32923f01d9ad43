/** Reading version and identifying hash from an MCUboot image. */
module Mcuboot {
  import opened Bytes
  import opened Wrappers
  import opened Commands

  const IMAGE_MAGIC: u32 := 0x96f3b83d
  const IMAGE_TLV_INFO_MAGIC: u16 := 0x6907
  const IMAGE_TLV_SHA256: u8 := 0x10
  const SHA256_LEN: nat := 32
  const TLV_INFO_HEADER_SIZE: nat := 4
  const TLV_ELEMENT_HEADER_SIZE: nat := 4

  datatype ImageVersion = ImageVersion(major: u8, minor: u8, revision: u16, buildNum: u32)

  datatype ImageInfo = ImageInfo(version: ImageVersion, hash: Hash)

  datatype ImageParseError = UnknownImageType | TlvMissing | IdHashMissing | ReadFailed

  /** A reader over bytes in memory. It may be moved behind the end, where reads fail. */
  class Cursor {
    const data: seq<byte>
    var pos: nat

    constructor (data: seq<byte>)
      ensures this.data == data && pos == 0
    {
      this.data, pos := data, 0;
    }

    method ReadExact(n: nat) returns (r: Option<seq<byte>>)
      modifies this
      ensures old(pos) + n <= |data| ==> r == Some(data[old(pos)..old(pos) + n]) && pos == old(pos) + n
      ensures old(pos) + n > |data| ==> r == None
    {
      if pos + n > |data| {
        pos := |data|;
        return None;
      }
      r := Some(data[pos..pos + n]);
      pos := pos + n;
    }

    method SeekStart(n: nat)
      modifies this
      ensures pos == n
    {
      pos := n;
    }

    method SeekRelative(n: nat)
      modifies this
      ensures pos == old(pos) + n
    {
      pos := pos + n;
    }
  }

  // The hash of the last suitable entry from some position on; an error if the data end too early.
  // An entry counts if its header lies within the announced total, even if its value does not.
  function Walk(data: seq<byte>, pos: nat, read: nat, total: u16, found: Option<Hash>): Option<Option<Hash>>
    decreases 0x1_0000 - read
  {
    if read + TLV_INFO_HEADER_SIZE + TLV_ELEMENT_HEADER_SIZE > total then Some(found)
    else if pos + 4 > |data| then None
    else
      var length := FromU16Le(data[pos + 2..pos + 4]);
      if data[pos] == IMAGE_TLV_SHA256 && length == SHA256_LEN then
        if pos + 4 + length > |data| then None
        else Walk(data, pos + 4 + length, read + 4 + length, total, Some(data[pos + 4..pos + 4 + length]))
      else Walk(data, pos + 4 + length, read + 4 + length, total, found)
  }

  // The number of entries visited.
  function Visited(data: seq<byte>, pos: nat, read: nat, total: u16): nat
    decreases 0x1_0000 - read
  {
    if read + 8 > total || pos + 4 > |data| then 0
    else
      var length := FromU16Le(data[pos + 2..pos + 4]);
      1 + Visited(data, pos + 4 + length, read + 4 + length, total)
  }

  // The fields of the header that matter, at the start of an image.
  datatype Header = Header(magic: u32, headerSize: u16, protectedSize: u16, imageSize: u32, version: ImageVersion)

  const HEADER_LENGTH: nat := 28

  function HeaderOf(h: seq<byte>): Header
    requires |h| == HEADER_LENGTH
  {
    Header(FromU32Le(h[0..4]), FromU16Le(h[8..10]), FromU16Le(h[10..12]), FromU32Le(h[12..16]),
           ImageVersion(h[20], h[21], FromU16Le(h[22..24]), FromU32Le(h[24..28])))
  }

  function Parse(data: seq<byte>): Result<ImageInfo, ImageParseError> {
    if |data| < 4 then Err(ReadFailed)
    else if FromU32Le(data[0..4]) != IMAGE_MAGIC then Err(UnknownImageType)
    else if |data| < HEADER_LENGTH then Err(ReadFailed)
    else
      var h := HeaderOf(data[..HEADER_LENGTH]);
      var area := h.headerSize + h.protectedSize + h.imageSize;
      if area + 2 > |data| then Err(ReadFailed)
      else if FromU16Le(data[area..area + 2]) != IMAGE_TLV_INFO_MAGIC then Err(TlvMissing)
      else if area + 4 > |data| then Err(ReadFailed)
      else
        match Walk(data, area + 4, 0, FromU16Le(data[area + 2..area + 4]), None)
        case None => Err(ReadFailed)
        case Some(None) => Err(IdHashMissing)
        case Some(Some(hash)) => Ok(ImageInfo(h.version, hash))
  }

  method ReadU8(data: Cursor) returns (r: Option<u8>)
    modifies data
    ensures old(data.pos) + 1 <= |data.data| ==> r == Some(data.data[old(data.pos)]) && data.pos == old(data.pos) + 1
    ensures old(data.pos) + 1 > |data.data| ==> r == None
  {
    var bytes := data.ReadExact(1);
    return if bytes.Some? then Some(bytes.value[0]) else None;
  }

  method ReadU16(data: Cursor) returns (r: Option<u16>)
    modifies data
    ensures old(data.pos) + 2 <= |data.data| ==>
      r == Some(FromU16Le(data.data[old(data.pos)..old(data.pos) + 2])) && data.pos == old(data.pos) + 2
    ensures old(data.pos) + 2 > |data.data| ==> r == None
  {
    var bytes := data.ReadExact(2);
    return if bytes.Some? then Some(FromU16Le(bytes.value)) else None;
  }

  method ReadU32(data: Cursor) returns (r: Option<u32>)
    modifies data
    ensures old(data.pos) + 4 <= |data.data| ==>
      r == Some(FromU32Le(data.data[old(data.pos)..old(data.pos) + 4])) && data.pos == old(data.pos) + 4
    ensures old(data.pos) + 4 > |data.data| ==> r == None
  {
    var bytes := data.ReadExact(4);
    return if bytes.Some? then Some(FromU32Le(bytes.value)) else None;
  }

  // One entry of the walk.
  lemma WalkStep(data: seq<byte>, pos: nat, read: nat, total: u16, found: Option<Hash>)
    requires read + 8 <= total
    ensures pos + 4 > |data| ==> Walk(data, pos, read, total, found) == None
    ensures pos + 4 <= |data| ==>
            && var length := Two(data[pos + 3], data[pos + 2]);
            && Visited(data, pos, read, total) == 1 + Visited(data, pos + 4 + length, read + 4 + length, total)
            && (if data[pos] == 0x10 && length == 32 then
                  && (pos + 36 > |data| ==> Walk(data, pos, read, total, found) == None)
                  && (pos + 36 <= |data| ==>
                        Walk(data, pos, read, total, found)
                        == Walk(data, pos + 36, read + 36, total, Some(data[pos + 4..pos + 36])))
                else
                  Walk(data, pos, read, total, found) == Walk(data, pos + 4 + length, read + 4 + length, total, found))
  {
    hide FromU16Le, Two;
    if pos + 4 <= |data| {
      LengthAt(data, pos);
    }
  }

  lemma LengthAt(data: seq<byte>, pos: nat)
    requires pos + 4 <= |data|
    ensures FromU16Le(data[pos + 2..pos + 4]) == Two(data[pos + 3], data[pos + 2])
  {
    hide FromU16Le, Two;
    FromTwo(data[pos + 2..pos + 4]);
  }

  lemma WalkEnd(data: seq<byte>, pos: nat, read: nat, total: u16, found: Option<Hash>)
    requires read + 8 > total
    ensures Walk(data, pos, read, total, found) == Some(found) && Visited(data, pos, read, total) == 0
  {
  }

  // The entries of the TLV area, whose first entry is at the cursor; also how many there were and how many
  // bytes they were taken to have.
  method ReadEntries(imageData: Cursor, total: u16)
      returns (r: Option<Option<Hash>>, ghost visited: nat, ghost bytes: u32)
    modifies imageData
    ensures r == Walk(imageData.data, old(imageData.pos), 0, total, None)
    ensures r.Some? ==> imageData.pos == old(imageData.pos) + bytes
    ensures r.Some? ==> visited == Visited(imageData.data, old(imageData.pos), 0, total)
    ensures 4 * visited <= bytes < 0x2_0000 && visited <= 16382
  {
    hide Walk, Visited, FromU16Le;
    var idHash: Option<Hash> := None;
    var tlvRead: u32 := 0;
    ghost var start := imageData.pos;
    visited, bytes := 0, 0;
    while tlvRead + TLV_INFO_HEADER_SIZE + TLV_ELEMENT_HEADER_SIZE <= total
      invariant imageData.pos == start + tlvRead && bytes == tlvRead
      invariant 4 * visited <= tlvRead < 0x2_0000 && visited <= 16382
      invariant visited + Visited(imageData.data, imageData.pos, tlvRead, total) == Visited(imageData.data, start, 0, total)
      invariant Walk(imageData.data, imageData.pos, tlvRead, total, idHash) == Walk(imageData.data, start, 0, total, None)
      decreases total - tlvRead
    {
      WalkStep(imageData.data, imageData.pos, tlvRead, total, idHash);
      if imageData.pos + 4 <= |imageData.data| {
        LengthAt(imageData.data, imageData.pos);
      }
      var kind := ReadU8(imageData);
      if kind.None? {
        return None, visited, bytes;
      }
      var pad := ReadU8(imageData);
      if pad.None? {
        return None, visited, bytes;
      }
      var length := ReadU16(imageData);
      if length.None? {
        return None, visited, bytes;
      }
      if kind.value == IMAGE_TLV_SHA256 && length.value == SHA256_LEN {
        var sha256Hash := imageData.ReadExact(SHA256_LEN);
        if sha256Hash.None? {
          return None, visited, bytes;
        }
        idHash := Some(sha256Hash.value);
      } else {
        imageData.SeekRelative(length.value);
      }
      tlvRead := tlvRead + length.value + 4;
      visited, bytes := visited + 1, tlvRead;
    }
    WalkEnd(imageData.data, imageData.pos, tlvRead, total, idHash);
    return Some(idHash), visited, bytes;
  }

  method GetImageInfo(imageData: Cursor) returns (r: Result<ImageInfo, ImageParseError>)
    requires imageData.pos == 0
    modifies imageData
    ensures r == Parse(imageData.data)
  {
    hide FromU16Le, FromU32Le, Walk;
    ghost var d := imageData.data;
    var magic := ReadU32(imageData);
    if magic.None? {
      return Err(ReadFailed);
    }
    if magic.value != IMAGE_MAGIC {
      return Err(UnknownImageType);
    }
    var loadAddr := ReadU32(imageData);
    if loadAddr.None? {
      return Err(ReadFailed);
    }
    var headerSize := ReadU16(imageData);
    if headerSize.None? {
      return Err(ReadFailed);
    }
    var protectedSize := ReadU16(imageData);
    if protectedSize.None? {
      return Err(ReadFailed);
    }
    var imageSize := ReadU32(imageData);
    if imageSize.None? {
      return Err(ReadFailed);
    }
    var flags := ReadU32(imageData);
    if flags.None? {
      return Err(ReadFailed);
    }
    var major := ReadU8(imageData);
    if major.None? {
      return Err(ReadFailed);
    }
    var minor := ReadU8(imageData);
    if minor.None? {
      return Err(ReadFailed);
    }
    var revision := ReadU16(imageData);
    if revision.None? {
      return Err(ReadFailed);
    }
    var buildNum := ReadU32(imageData);
    if buildNum.None? {
      return Err(ReadFailed);
    }
    var version := ImageVersion(major.value, minor.value, revision.value, buildNum.value);
    SlicesOfHeader(d);
    assert HeaderOf(d[..HEADER_LENGTH])
           == Header(magic.value, headerSize.value, protectedSize.value, imageSize.value, version);

    var area: nat := headerSize.value as nat + protectedSize.value as nat + imageSize.value;
    imageData.SeekStart(area);
    var tlvMagic := ReadU16(imageData);
    if tlvMagic.None? {
      return Err(ReadFailed);
    }
    if tlvMagic.value != IMAGE_TLV_INFO_MAGIC {
      return Err(TlvMissing);
    }
    var total := ReadU16(imageData);
    if total.None? {
      return Err(ReadFailed);
    }
    var idHash;
    ghost var visited, bytes;
    idHash, visited, bytes := ReadEntries(imageData, total.value);
    if idHash.None? {
      return Err(ReadFailed);
    }
    if idHash.value.Some? {
      return Ok(ImageInfo(version, idHash.value.value));
    }
    return Err(IdHashMissing);
  }

  lemma SlicesOfHeader(d: seq<byte>)
    requires |d| >= HEADER_LENGTH
    ensures var h := d[..HEADER_LENGTH];
            && h[0..4] == d[0..4] && h[8..10] == d[8..10] && h[10..12] == d[10..12] && h[12..16] == d[12..16]
            && h[20] == d[20] && h[21] == d[21] && h[22..24] == d[22..24] && h[24..28] == d[24..28]
  {
  }

  // The walk visits at most 16382 entries, whatever the bytes are.
  lemma {:induction false} VisitedBound(data: seq<byte>, pos: nat, read: nat, total: u16)
    ensures Visited(data, pos, read, total) == 0 || 4 * Visited(data, pos, read, total) <= total - 4 - read
    ensures Visited(data, pos, read, total) <= 16382
    decreases 0x1_0000 - read
  {
    if read + 8 <= total && pos + 4 <= |data| {
      var length := FromU16Le(data[pos + 2..pos + 4]);
      VisitedBound(data, pos + 4 + length, read + 4 + length, total);
    }
  }

  // What parses, byte by byte.

  // The two magic numbers.
  lemma MagicBytes(s: seq<byte>)
    ensures |s| == 4 ==> (FromU32Le(s) == IMAGE_MAGIC <==> s == [0x3d, 0xb8, 0xf3, 0x96])
    ensures |s| == 2 ==> (FromU16Le(s) == IMAGE_TLV_INFO_MAGIC <==> s == [0x07, 0x69])
  {
    hide FromU16Le, FromU32Le;
    if |s| == 4 {
      FromFour(s);
      SameFour(s[3], s[2], s[1], s[0]);
      assert s == [s[0], s[1], s[2], s[3]];
    } else if |s| == 2 {
      FromTwo(s);
      assert s == [s[0], s[1]];
    }
  }

  lemma SameFour(a: byte, b: byte, c: byte, d: byte)
    ensures Four(a, b, c, d) == 0x96f3b83d <==> a == 0x96 && b == 0xf3 && c == 0xb8 && d == 0x3d
  {
  }

  // Where the TLV area starts: behind the header, the image and the protected area, as the header has their sizes.
  function AreaOf(data: seq<byte>): int
    requires |data| >= 28
  {
    Two(data[9], data[8]) + Two(data[11], data[10]) + Four(data[15], data[14], data[13], data[12])
  }

  lemma HeaderInBytes(data: seq<byte>)
    requires |data| >= 28
    ensures var h := HeaderOf(data[..28]);
            && h.headerSize + h.protectedSize + h.imageSize == AreaOf(data)
            && h.version == ImageVersion(data[20], data[21], Two(data[23], data[22]),
                                         Four(data[27], data[26], data[25], data[24]))
  {
    hide FromU16Le, FromU32Le, Two, Four;
    SlicesOfHeader(data);
    FromTwo(data[8..10]);
    FromTwo(data[10..12]);
    FromFour(data[12..16]);
    FromTwo(data[22..24]);
    FromFour(data[24..28]);
  }

  // When each error occurs.
  lemma ParseErrors(data: seq<byte>)
    ensures Parse(data) == Err(UnknownImageType) <==> |data| >= 4 && data[..4] != [0x3d, 0xb8, 0xf3, 0x96]
    ensures Parse(data) == Err(TlvMissing) <==>
            && |data| >= 28 && data[..4] == [0x3d, 0xb8, 0xf3, 0x96]
            && AreaOf(data) + 2 <= |data| && data[AreaOf(data)..AreaOf(data) + 2] != [0x07, 0x69]
    ensures Parse(data) == Err(IdHashMissing) <==>
            && |data| >= 28 && data[..4] == [0x3d, 0xb8, 0xf3, 0x96]
            && AreaOf(data) + 4 <= |data| && data[AreaOf(data)..AreaOf(data) + 2] == [0x07, 0x69]
            && var area := AreaOf(data);
               Walk(data, area + 4, 0, Two(data[area + 3], data[area + 2]), None) == Some(None)
  {
    hide FromU16Le, FromU32Le, Walk, HeaderOf, Two, Four, AreaOf;
    if |data| >= 4 {
      assert data[0..4] == data[..4];
      MagicBytes(data[..4]);
    }
    if |data| >= 28 {
      HeaderInBytes(data);
      var area := AreaOf(data);
      if area + 2 <= |data| {
        MagicBytes(data[area..area + 2]);
      }
      if area + 4 <= |data| {
        LengthAt(data, area);
      }
    }
  }

  // An image that parses has both magic numbers, its version where the header has it, and as its hash the 32
  // bytes behind an entry header of type 0x10 and length 32.
  lemma ParsedImage(data: seq<byte>)
    requires Parse(data).Ok?
    ensures |data| >= 28 && data[..4] == [0x3d, 0xb8, 0xf3, 0x96]
    ensures AreaOf(data) + 4 <= |data| && data[AreaOf(data)..AreaOf(data) + 2] == [0x07, 0x69]
    ensures Parse(data).value.version
         == ImageVersion(data[20], data[21], Two(data[23], data[22]), Four(data[27], data[26], data[25], data[24]))
    ensures exists p: nat :: AreaOf(data) + 4 <= p && HashAt(data, p, Parse(data).value.hash)
  {
    hide FromU16Le, FromU32Le, Walk, HeaderOf, Two, Four, AreaOf, HashAt;
    assert data[0..4] == data[..4];
    MagicBytes(data[..4]);
    HeaderInBytes(data);
    var area := AreaOf(data);
    MagicBytes(data[area..area + 2]);
    var p := FoundAt(data, area + 4, 0, FromU16Le(data[area + 2..area + 4]), None);
  }

  predicate HashAt(data: seq<byte>, p: nat, hash: Hash) {
    p + 36 <= |data| && data[p] == 0x10 && data[p + 2] == 32 && data[p + 3] == 0 && data[p + 4..p + 36] == hash
  }

  lemma {:induction false} FoundAt(data: seq<byte>, pos: nat, read: nat, total: u16, found: Option<Hash>) returns (p: nat)
    requires Walk(data, pos, read, total, found).Some? && Walk(data, pos, read, total, found).value.Some?
    ensures Walk(data, pos, read, total, found).value == found ||
            (pos <= p && HashAt(data, p, Walk(data, pos, read, total, found).value.value))
    decreases 0x1_0000 - read
  {
    hide Walk, Visited;
    p := pos;
    if read + 8 <= total {
      WalkStep(data, pos, read, total, found);
      var length := Two(data[pos + 3], data[pos + 2]);
      if data[pos] == 0x10 && length == 32 {
        p := FoundAt(data, pos + 36, read + 36, total, Some(data[pos + 4..pos + 36]));
        if !(pos + 36 <= p && HashAt(data, p, Walk(data, pos, read, total, found).value.value)) {
          p := pos;
        }
      } else {
        p := FoundAt(data, pos + 4 + length, read + 4 + length, total, found);
      }
    } else {
      WalkEnd(data, pos, read, total, found);
    }
  }

  // Building images.

  datatype Entry = Entry(kind: u8, pad: byte, value: seq<byte>) {
    predicate Valid() {
      |value| < 0x1_0000
    }

    function Serialize(): seq<byte>
      requires Valid()
    {
      [kind, pad, |value| % 0x100, |value| / 0x100] + value
    }
  }

  predicate ValidEntries(entries: seq<Entry>) {
    forall i :: 0 <= i < |entries| ==> entries[i].Valid()
  }

  function Serialize(entries: seq<Entry>): seq<byte>
    requires ValidEntries(entries)
  {
    if entries == [] then [] else entries[0].Serialize() + Serialize(entries[1..])
  }

  // The value of the last entry that is a SHA-256 hash, or what was found before.
  function LastHash(entries: seq<Entry>, found: Option<Hash>): Option<Hash> {
    if entries == [] then found
    else
      var e := entries[0];
      LastHash(entries[1..], if e.kind == 0x10 && |e.value| == 32 then Some(e.value) else found)
  }

  // An announced total that covers at least the header of the last entry and no further header. The exact
  // size of the area does; so does a total that ends within the last value.
  predicate Announces(total: nat, read: nat, entries: seq<Entry>)
    requires ValidEntries(entries)
    decreases entries
  {
    if entries == [] then total < read + 8
    else read + 8 <= total && Announces(total, read + 4 + |entries[0].value|, entries[1..])
  }

  lemma {:induction false} ExactTotalAnnounces(entries: seq<Entry>, read: nat)
    requires ValidEntries(entries)
    ensures Announces(read + 4 + |Serialize(entries)|, read, entries)
    decreases entries
  {
    if entries != [] {
      ExactTotalAnnounces(entries[1..], read + 4 + |entries[0].value|);
    }
  }

  lemma U16LeRoundTrip(n: u16)
    ensures FromU16Le(U16Le(n)) == n
  {
  }

  // The walk over serialised entries finds their last hash.
  lemma {:induction false} WalkFindsLastHash(data: seq<byte>, pos: nat, read: nat, total: u16, entries: seq<Entry>,
                                             found: Option<Hash>)
    requires ValidEntries(entries) && Announces(total, read, entries)
    requires pos + |Serialize(entries)| <= |data| && data[pos..pos + |Serialize(entries)|] == Serialize(entries)
    ensures Walk(data, pos, read, total, found) == Some(LastHash(entries, found))
    ensures Visited(data, pos, read, total) == |entries|
    decreases entries
  {
    hide FromU16Le, U16Le;
    if entries != [] {
      var e, more := entries[0], Serialize(entries[1..]);
      var n := |e.value|;
      var all := Serialize(entries);
      EntryAt(data, pos, e, more);
      WalkFindsLastHash(data, pos + 4 + n, read + 4 + n, total, entries[1..],
                        if e.kind == IMAGE_TLV_SHA256 && n == SHA256_LEN then Some(e.value) else found);
    }
  }

  lemma EntryAt(data: seq<byte>, pos: nat, e: Entry, more: seq<byte>)
    requires e.Valid() && pos + |e.Serialize() + more| <= |data|
    requires data[pos..pos + |e.Serialize() + more|] == e.Serialize() + more
    ensures |e.Serialize()| == 4 + |e.value|
    ensures data[pos] == e.kind && FromU16Le(data[pos + 2..pos + 4]) == |e.value|
    ensures data[pos + 4..pos + 4 + |e.value|] == e.value
    ensures data[pos + 4 + |e.value|..pos + 4 + |e.value| + |more|] == more
  {
    var n := |e.value|;
    var all := e.Serialize() + more;
    U16LeRoundTrip(n);
    assert data[pos] == data[pos..pos + |all|][0];
    assert all[2..4] == U16Le(n) && all[4..4 + n] == e.value && all[4 + n..4 + n + |more|] == more;
    SubSlice(data, pos, all, 2, 4);
    SubSlice(data, pos, all, 4, 4 + n);
    SubSlice(data, pos, all, 4 + n, 4 + n + |more|);
  }

  lemma SubSlice(data: seq<byte>, pos: nat, part: seq<byte>, i: nat, j: nat)
    requires pos + |part| <= |data| && data[pos..pos + |part|] == part && i <= j <= |part|
    ensures data[pos + i..pos + j] == part[i..j]
  {
    var slice, target := data[pos..pos + |part|], data[pos + i..pos + j];
    assert forall k :: 0 <= k < |target| ==> target[k] == slice[i + k];
  }

  datatype Image = Image(
    loadAddr: u32,
    flags: u32,
    version: ImageVersion,
    headerRest: seq<byte>,
    body: seq<byte>,
    protectedArea: seq<byte>,
    entries: seq<Entry>
  ) {
    predicate Valid() {
      && HEADER_LENGTH + |headerRest| < 0x1_0000
      && |body| < 0x1_0000_0000
      && |protectedArea| < 0x1_0000
      && ValidEntries(entries)
    }

    function HeaderBytes(): (h: seq<byte>)
      requires Valid()
      ensures |h| == HEADER_LENGTH
    {
      [0x3d, 0xb8, 0xf3, 0x96] + U32Le(loadAddr) + U16Le(HEADER_LENGTH + |headerRest|) + U16Le(|protectedArea|)
      + U32Le(|body|) + U32Le(flags) + [version.major, version.minor] + U16Le(version.revision) + U32Le(version.buildNum)
    }

    // The image with some announced size of the TLV area, and what may follow it in the file.
    function Build(total: u16, trailer: seq<byte>): seq<byte>
      requires Valid()
    {
      HeaderBytes() + (headerRest + body + protectedArea)
      + ([0x07, 0x69] + U16Le(total)) + (Serialize(entries) + trailer)
    }
  }

  lemma HeaderRoundTrip(img: Image)
    requires img.Valid()
    ensures HeaderOf(img.HeaderBytes())
         == Header(IMAGE_MAGIC, HEADER_LENGTH + |img.headerRest|, |img.protectedArea|, |img.body|, img.version)
  {
    hide U16Le, U32Le, FromU16Le, FromU32Le;
    var h := img.HeaderBytes();
    MagicBytes([0x3d, 0xb8, 0xf3, 0x96]);
    U16LeRoundTrip(HEADER_LENGTH + |img.headerRest|);
    U16LeRoundTrip(|img.protectedArea|);
    U32LeRoundTrip(|img.body|);
    U16LeRoundTrip(img.version.revision);
    U32LeRoundTrip(img.version.buildNum);
    assert h[0..4] == [0x3d, 0xb8, 0xf3, 0x96];
    assert h[8..10] == U16Le(HEADER_LENGTH + |img.headerRest|);
    assert h[10..12] == U16Le(|img.protectedArea|);
    assert h[12..16] == U32Le(|img.body|);
    assert h[22..24] == U16Le(img.version.revision);
    assert h[24..28] == U32Le(img.version.buildNum);
  }

  // Parsing inverts building.
  lemma ParseInvertsBuild(img: Image, total: u16, trailer: seq<byte>)
    requires img.Valid() && Announces(total, 0, img.entries)
    ensures Parse(img.Build(total, trailer))
         == match LastHash(img.entries, None)
            case Some(hash) => Ok(ImageInfo(img.version, hash))
            case None => Err(IdHashMissing)
  {
    hide U16Le, FromU16Le, FromU32Le, Walk, Image.HeaderBytes, Announces, Serialize;
    var d, h := img.Build(total, trailer), img.HeaderBytes();
    var middle, entries := img.headerRest + img.body + img.protectedArea, Serialize(img.entries);
    var area := |h + middle|;
    HeaderRoundTrip(img);
    assert d[..HEADER_LENGTH] == h && d[0..4] == h[0..4];
    MagicBytes([0x07, 0x69]);
    U16LeRoundTrip(total);
    assert d == h + middle + ([0x07, 0x69] + U16Le(total)) + (entries + trailer);
    assert d[area..area + 2] == [0x07, 0x69];
    assert d[area + 2..area + 4] == U16Le(total);
    assert d[area + 4..area + 4 + |entries|] == entries;
    WalkFindsLastHash(d, area + 4, 0, total, img.entries, None);
  }
}
