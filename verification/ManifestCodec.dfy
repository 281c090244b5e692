/** The bytes of a manifest. */
module ManifestCodec {
  import opened Basics
  import opened Clock

  type Uuid = s: seq<u8> | |s| == 16 witness [0, 0, 0, 0, 0, 0, 0, 0, 0, 0, 0, 0, 0, 0, 0, 0]

  const TAG_BYTES: nat := 16
  const MAGIC: seq<u8> := [0x55, 0x57, 0x4D]
  const VERSION: u8 := 1
  const HEADER_BYTES: nat := 4 + 4 + 16 + 1 + 4
  const ENTRY_BYTES: nat := 1 + 1 + 16 + 16

  /** The kind is kept raw: one this build does not know is carried. */
  datatype ManifestEntry = ManifestEntry(kind: u8, id: Uuid, clock: Hlc, deleted: bool)

  datatype Manifest = Manifest(device: u32, createdAt: Hlc, isPartial: bool, entries: seq<ManifestEntry>)

  // ----- Numbers, most significant byte first -----

  function Be(v: nat, n: nat): (bytes: seq<u8>)
    ensures |bytes| == n
  {
    if n == 0 then [] else Be(v / 256, n - 1) + [v % 256]
  }

  function FromBe(bytes: seq<u8>): nat {
    if bytes == [] then 0 else FromBe(bytes[..|bytes| - 1]) * 256 + bytes[|bytes| - 1]
  }

  function Room(n: nat): nat {
    if n == 0 then 1 else 256 * Room(n - 1)
  }

  lemma {:induction false} BeReads(v: nat, n: nat)
    requires v < Room(n)
    ensures FromBe(Be(v, n)) == v
  {
    if n > 0 {
      BeReads(v / 256, n - 1);
      assert Be(v, n)[..n - 1] == Be(v / 256, n - 1);
    }
  }

  lemma {:induction false} BeWrites(bytes: seq<u8>)
    ensures FromBe(bytes) < Room(|bytes|)
    ensures Be(FromBe(bytes), |bytes|) == bytes
    decreases |bytes|
  {
    if bytes != [] {
      BeWrites(bytes[..|bytes| - 1]);
    }
  }

  lemma Rooms()
    ensures Room(4) == U32 && Room(8) == U64_MAX + 1
  {
    assert Room(2) == 0x1_0000;
    assert Room(4) == 0x1_0000_0000;
    assert Room(6) == 0x1_0000_0000_0000;
  }

  function ClockBytes(clock: Hlc): (bytes: seq<u8>)
    ensures |bytes| == 16
  {
    Be(clock.wall, 8) + Be(clock.counter, 4) + Be(clock.device, 4)
  }

  function ReadClock(bytes: seq<u8>): Hlc
    requires |bytes| == 16
  {
    Rooms();
    BeWrites(bytes[..8]);
    BeWrites(bytes[8..12]);
    BeWrites(bytes[12..]);
    Hlc(FromBe(bytes[..8]), FromBe(bytes[8..12]), FromBe(bytes[12..]))
  }

  lemma ClockReads(clock: Hlc)
    ensures ReadClock(ClockBytes(clock)) == clock
  {
    Rooms();
    var bytes := ClockBytes(clock);
    assert bytes[..8] == Be(clock.wall, 8) && bytes[8..12] == Be(clock.counter, 4)
        && bytes[12..] == Be(clock.device, 4);
    BeReads(clock.wall, 8);
    BeReads(clock.counter, 4);
    BeReads(clock.device, 4);
  }

  lemma ClockWrites(bytes: seq<u8>)
    requires |bytes| == 16
    ensures ClockBytes(ReadClock(bytes)) == bytes
  {
    BeWrites(bytes[..8]);
    BeWrites(bytes[8..12]);
    BeWrites(bytes[12..]);
    assert bytes == bytes[..8] + bytes[8..12] + bytes[12..];
  }

  // ----- Entries -----

  function Flag(b: bool): u8 {
    if b then 1 else 0
  }

  function EntryBytes(e: ManifestEntry): (bytes: seq<u8>)
    ensures |bytes| == ENTRY_BYTES
  {
    [e.kind, Flag(e.deleted)] + e.id + ClockBytes(e.clock)
  }

  function ReadEntry(chunk: seq<u8>): Option<ManifestEntry>
    requires |chunk| == ENTRY_BYTES
  {
    if chunk[1] > 1 then None
    else Some(ManifestEntry(chunk[0], chunk[2..18], ReadClock(chunk[18..34]), chunk[1] == 1))
  }

  lemma EntryReads(e: ManifestEntry)
    ensures ReadEntry(EntryBytes(e)) == Some(e)
  {
    var bytes := EntryBytes(e);
    assert bytes[2..18] == e.id && bytes[18..34] == ClockBytes(e.clock);
    ClockReads(e.clock);
  }

  lemma EntryWrites(chunk: seq<u8>)
    requires |chunk| == ENTRY_BYTES && ReadEntry(chunk).Some?
    ensures EntryBytes(ReadEntry(chunk).value) == chunk
  {
    ClockWrites(chunk[18..34]);
    assert chunk == [chunk[0], chunk[1]] + chunk[2..18] + chunk[18..34];
  }

  function Body(entries: seq<ManifestEntry>): (bytes: seq<u8>)
    ensures |bytes| == |entries| * ENTRY_BYTES
  {
    if entries == [] then []
    else Body(entries[..|entries| - 1]) + EntryBytes(entries[|entries| - 1])
  }

  lemma {:induction false} BodyAt(entries: seq<ManifestEntry>, k: nat)
    requires k < |entries|
    ensures Body(entries)[k * ENTRY_BYTES..(k + 1) * ENTRY_BYTES] == EntryBytes(entries[k])
    decreases |entries|
  {
    var n := |entries| - 1;
    if k < n {
      BodyAt(entries[..n], k);
      assert Body(entries)[k * ENTRY_BYTES..(k + 1) * ENTRY_BYTES]
          == Body(entries[..n])[k * ENTRY_BYTES..(k + 1) * ENTRY_BYTES];
    }
  }

  lemma BodyOneMore(entries: seq<ManifestEntry>, e: ManifestEntry)
    ensures Body(entries + [e]) == Body(entries) + EntryBytes(e)
  {
    assert (entries + [e])[..|entries|] == entries;
  }

  // ----- Manifests -----

  function Header(m: Manifest): (bytes: seq<u8>)
    ensures |bytes| == HEADER_BYTES
  {
    MAGIC + [VERSION] + Be(m.device, 4) + ClockBytes(m.createdAt) + [Flag(m.isPartial)]
    + Be(|m.entries| % U32, 4)
  }

  function Encoded(m: Manifest): seq<u8> {
    Header(m) + Body(m.entries)
  }

  method Encode(m: Manifest) returns (out: seq<u8>)
    ensures out == Encoded(m)
  {
    hide Be, ClockBytes;
    out := MAGIC + [VERSION];
    out := out + Be(m.device, 4);
    out := out + ClockBytes(m.createdAt);
    out := out + [Flag(m.isPartial)];
    out := out + Be(|m.entries| % U32, 4);
    for k := 0 to |m.entries|
      invariant out == Header(m) + Body(m.entries[..k])
    {
      var e := m.entries[k];
      assert m.entries[..k + 1] == m.entries[..k] + [e];
      BodyOneMore(m.entries[..k], e);
      out := out + ([e.kind, Flag(e.deleted)] + e.id + ClockBytes(e.clock));
    }
    assert m.entries[..|m.entries|] == m.entries;
  }

  /** What the parts of a header say. */
  lemma HeaderReads(m: Manifest)
    ensures var h := Header(m);
            && h[..3] == MAGIC && h[3] == VERSION
            && FromBe(h[4..8]) == m.device && ReadClock(h[8..24]) == m.createdAt
            && h[24] == Flag(m.isPartial) && FromBe(h[25..29]) == |m.entries| % U32
  {
    var h := Header(m);
    Rooms();
    assert h[4..8] == Be(m.device, 4) && h[8..24] == ClockBytes(m.createdAt)
        && h[25..29] == Be(|m.entries| % U32, 4);
    BeReads(m.device, 4);
    BeReads(|m.entries| % U32, 4);
    ClockReads(m.createdAt);
  }

  lemma HeaderWrites(h: seq<u8>, m: Manifest)
    requires |h| == HEADER_BYTES && h[..3] == MAGIC && h[3] == VERSION && h[24] <= 1
    requires m.device == FromBe(h[4..8]) && m.createdAt == ReadClock(h[8..24])
    requires m.isPartial == (h[24] == 1) && |m.entries| % U32 == FromBe(h[25..29])
    ensures Header(m) == h
  {
    BeWrites(h[4..8]);
    BeWrites(h[25..29]);
    ClockWrites(h[8..24]);
    assert h == h[..3] + [h[3]] + h[4..8] + h[8..24] + [h[24]] + h[25..29];
  }

  /** What a manifest's bytes look like from outside. */
  predicate Encodes(bytes: seq<u8>, m: Manifest) {
    |m.entries| <= MAX_MANIFEST_ENTRIES && bytes == Encoded(m)
  }

  lemma EncodesParts(bytes: seq<u8>, m: Manifest)
    requires Encodes(bytes, m)
    ensures |bytes| == HEADER_BYTES + |m.entries| * ENTRY_BYTES
    ensures bytes[..HEADER_BYTES] == Header(m) && bytes[HEADER_BYTES..] == Body(m.entries)
    ensures FromBe(bytes[25..29]) == |m.entries|
  {
    HeaderReads(m);
    assert bytes[25..29] == Header(m)[25..29];
  }

  /** The number in four bytes from `at` on, the most significant first. */
  function Number4(bytes: seq<u8>, at: nat): nat
    requires at + 4 <= |bytes|
  {
    bytes[at] as int * 0x100_0000 + bytes[at + 1] as int * 0x1_0000 + bytes[at + 2] as int * 0x100
    + bytes[at + 3] as int
  }

  function Number8(bytes: seq<u8>, at: nat): nat
    requires at + 8 <= |bytes|
  {
    Number4(bytes, at) * 0x1_0000_0000 + Number4(bytes, at + 4)
  }

  lemma FourAreNumber(bytes: seq<u8>)
    requires |bytes| == 4
    ensures FromBe(bytes) == Number4(bytes, 0)
  {
    assert bytes[..3][..2] == bytes[..2] && bytes[..2][..1] == bytes[..1] && bytes[..1][..0] == [];
    assert FromBe(bytes[..1]) == bytes[0] as int;
    assert FromBe(bytes[..2]) == bytes[0] as int * 0x100 + bytes[1] as int;
    assert FromBe(bytes[..3]) == bytes[0] as int * 0x1_0000 + bytes[1] as int * 0x100 + bytes[2] as int;
  }

  lemma {:induction false} FromBeAdds(a: seq<u8>, b: seq<u8>)
    ensures FromBe(a + b) == FromBe(a) * Room(|b|) + FromBe(b)
    decreases |b|
  {
    if b == [] {
      assert a + b == a;
    } else {
      FromBeAdds(a, b[..|b| - 1]);
      assert (a + b)[..|a + b| - 1] == a + b[..|b| - 1];
    }
  }

  lemma ClockIsNumbers(clock: Hlc)
    ensures var bytes := ClockBytes(clock);
            && Number8(bytes, 0) == clock.wall && Number4(bytes, 8) == clock.counter
            && Number4(bytes, 12) == clock.device
  {
    ClockReads(clock);
    Rooms();
    var bytes := ClockBytes(clock);
    FourAreNumber(bytes[..4]);
    FourAreNumber(bytes[4..8]);
    FourAreNumber(bytes[8..12]);
    FourAreNumber(bytes[12..]);
    FromBeAdds(bytes[..4], bytes[4..8]);
    assert bytes[..8] == bytes[..4] + bytes[4..8];
  }

  /** A clock from `at` on: wall, counter and device. */
  predicate ClockAt(bytes: seq<u8>, at: nat, clock: Hlc)
    requires at + 16 <= |bytes|
  {
    Number8(bytes, at) == clock.wall && Number4(bytes, at + 8) == clock.counter
    && Number4(bytes, at + 12) == clock.device
  }

  lemma ClockIsAt(bytes: seq<u8>, at: nat, clock: Hlc)
    requires at + 16 <= |bytes| && bytes[at..at + 16] == ClockBytes(clock)
    ensures ClockAt(bytes, at, clock)
  {
    hide ClockBytes;
    ClockIsNumbers(clock);
    var part := bytes[at..at + 16];
    assert forall i :: 0 <= i < 16 ==> part[i] == bytes[at + i];
  }

  /** The header, byte by byte. */
  lemma HeaderLayout(m: Manifest)
    requires |m.entries| <= MAX_MANIFEST_ENTRIES
    ensures var bytes := Encoded(m);
            && |bytes| == 29 + 34 * |m.entries|
            && bytes[..4] == [0x55, 0x57, 0x4D, 1]
            && Number4(bytes, 4) == m.device && ClockAt(bytes, 8, m.createdAt)
            && bytes[24] == (if m.isPartial then 1 else 0) && Number4(bytes, 25) == |m.entries|
  {
    hide Be, ClockBytes;
    var bytes, h := Encoded(m), Header(m);
    HeaderReads(m);
    assert forall i :: 0 <= i < 29 ==> bytes[i] == h[i];
    assert h[..4] == MAGIC + [VERSION];
    FourAreNumber(h[4..8]);
    FourAreNumber(h[25..29]);
    assert bytes[8..24] == h[8..24] == ClockBytes(m.createdAt);
    ClockIsAt(bytes, 8, m.createdAt);
  }

  lemma PartOfPart(bytes: seq<u8>, at: nat, n: nat, from: nat, to: nat)
    requires at + n <= |bytes| && from <= to <= n
    ensures bytes[at..at + n][from..to] == bytes[at + from..at + to]
  {
    var part, whole := bytes[at..at + n][from..to], bytes[at + from..at + to];
    forall i | 0 <= i < to - from
      ensures part[i] == whole[i]
    {
      assert part[i] == bytes[at..at + n][from + i] == bytes[at + (from + i)];
    }
    assert part == whole;
  }

  /** Each entry, byte by byte: its kind, whether it is a delete, its id and its clock. */
  lemma EntryLayout(m: Manifest, k: nat)
    requires k < |m.entries|
    ensures var bytes, at, e := Encoded(m), 29 + 34 * k, m.entries[k];
            && at + 34 <= |bytes|
            && bytes[at] == e.kind && bytes[at + 1] == (if e.deleted then 1 else 0)
            && bytes[at + 2..at + 18] == e.id && ClockAt(bytes, at + 18, e.clock)
  {
    hide Be, ClockBytes, Body;
    var bytes, at, e := Encoded(m), 29 + 34 * k, m.entries[k];
    BodyAt(m.entries, k);
    var entry := EntryBytes(e);
    assert at + 34 <= |bytes|;
    assert bytes[at..at + 34] == Body(m.entries)[34 * k..34 * k + 34] == entry;
    assert forall i :: 0 <= i < 34 ==> bytes[at + i] == entry[i];
    PartOfPart(bytes, at, 34, 2, 18);
    PartOfPart(bytes, at, 34, 18, 34);
    assert entry[2..18] == e.id && entry[18..34] == ClockBytes(e.clock);
    ClockIsAt(bytes, at + 18, e.clock);
  }

  /** Some for exactly the bytes a manifest of at most 7000 entries encodes to, and
      then that manifest; None for anything else. */
  method Decode(bytes: seq<u8>) returns (r: Option<Manifest>)
    ensures r.Some? ==> Encodes(bytes, r.value)
    ensures r.None? ==> forall m :: !Encodes(bytes, m)
  {
    forall m | Encodes(bytes, m)
      ensures |bytes| >= HEADER_BYTES && bytes[..HEADER_BYTES] == Header(m)
      ensures bytes[..3] == MAGIC && bytes[3] == VERSION && bytes[24] <= 1
      ensures FromBe(bytes[25..29]) == |m.entries| && |bytes| == HEADER_BYTES + |m.entries| * ENTRY_BYTES
    {
      EncodesParts(bytes, m);
      HeaderReads(m);
      assert bytes[..3] == Header(m)[..3] && bytes[3] == Header(m)[3] && bytes[24] == Header(m)[24];
    }
    if |bytes| < HEADER_BYTES || bytes[..3] != MAGIC || bytes[3] != VERSION {
      return None;
    }
    Rooms();
    BeWrites(bytes[4..8]);
    BeWrites(bytes[25..29]);
    var device := FromBe(bytes[4..8]);
    var createdAt := ReadClock(bytes[8..24]);
    if bytes[24] > 1 {
      return None;
    }
    var count := FromBe(bytes[25..29]);
    var body := bytes[HEADER_BYTES..];
    if count > MAX_MANIFEST_ENTRIES || |body| != count * ENTRY_BYTES {
      return None;
    }
    var entries := ReadBody(body, count);
    if entries.None? {
      forall m | Encodes(bytes, m)
        ensures false
      {
        EncodesParts(bytes, m);
      }
      return None;
    }
    var m := Manifest(device, createdAt, bytes[24] == 1, entries.value);
    HeaderOfBytes(bytes, m);
    return Some(m);
  }

  lemma HeaderOfBytes(bytes: seq<u8>, m: Manifest)
    requires |bytes| >= HEADER_BYTES && bytes[..3] == MAGIC && bytes[3] == VERSION && bytes[24] <= 1
    requires m.device == FromBe(bytes[4..8]) && m.createdAt == ReadClock(bytes[8..24])
    requires m.isPartial == (bytes[24] == 1) && |m.entries| == FromBe(bytes[25..29]) < U32
    requires Body(m.entries) == bytes[HEADER_BYTES..]
    ensures Encoded(m) == bytes
  {
    var h := bytes[..HEADER_BYTES];
    assert h[..3] == bytes[..3] && h[4..8] == bytes[4..8] && h[8..24] == bytes[8..24] && h[25..29] == bytes[25..29];
    HeaderWrites(h, m);
    assert bytes == h + bytes[HEADER_BYTES..];
  }

  method ReadBody(body: seq<u8>, count: nat) returns (r: Option<seq<ManifestEntry>>)
    requires |body| == count * ENTRY_BYTES
    ensures r.Some? ==> |r.value| == count && Body(r.value) == body
    ensures r.None? ==> forall entries :: Body(entries) != body
  {
    var entries: seq<ManifestEntry> := [];
    for k := 0 to count
      invariant |entries| == k && Body(entries) == body[..k * ENTRY_BYTES]
    {
      var chunk := body[k * ENTRY_BYTES..(k + 1) * ENTRY_BYTES];
      var e := ReadEntry(chunk);
      if e.None? {
        forall other | Body(other) == body
          ensures false
        {
          BodyAt(other, k);
          EntryReads(other[k]);
        }
        return None;
      }
      EntryWrites(chunk);
      BodyOneMore(entries, e.value);
      assert body[..(k + 1) * ENTRY_BYTES] == body[..k * ENTRY_BYTES] + chunk;
      entries := entries + [e.value];
    }
    assert body[..count * ENTRY_BYTES] == body;
    return Some(entries);
  }

  /** Two manifests never share their bytes, so decoding an encoding can only give
      the manifest back. */
  lemma EncodingIsInjective(a: Manifest, b: Manifest, bytes: seq<u8>)
    requires Encodes(bytes, a) && Encodes(bytes, b)
    ensures a == b
  {
    EncodesParts(bytes, a);
    EncodesParts(bytes, b);
    HeaderReads(a);
    HeaderReads(b);
    forall k | 0 <= k < |a.entries|
      ensures a.entries[k] == b.entries[k]
    {
      BodyAt(a.entries, k);
      BodyAt(b.entries, k);
      EntryReads(a.entries[k]);
      EntryReads(b.entries[k]);
    }
  }

  /** There and back, for every manifest the store writes; and what it takes, with
      the seal's tag, a record may carry. */
  method RoundTrip(m: Manifest) returns (back: Option<Manifest>)
    requires |m.entries| <= MAX_MANIFEST_ENTRIES
    ensures back == Some(m)
    ensures |Encoded(m)| == HEADER_BYTES + |m.entries| * ENTRY_BYTES
    ensures |Encoded(m)| + TAG_BYTES <= MAX_BLOB_BYTES
  {
    var bytes := Encode(m);
    back := Decode(bytes);
    assert Encodes(bytes, m);
    EncodingIsInjective(m, back.value, bytes);
  }
}
