/** Chunks of a PNG file (section 3.2 of RFC 2083): writing them, and the walk the decoders make over a file. */
module PngChunks {
  import opened Common
  import Crc
  import opened PngFilter

  const WORDS: nat := 0x1_0000_0000

  /** A 32-bit number, most significant byte first. */
  function BigEndian(n: nat): (s: seq<byte>)
    requires n < WORDS
    ensures |s| == 4
  {
    var a: nat := n / 256;
    var b: nat := a / 256;
    [b / 256, b % 256, a % 256, n % 256]
  }

  function FromBigEndian(s: seq<byte>): nat
    requires |s| == 4
  {
    (((s[0] as int) * 256 + s[1] as int) * 256 + s[2] as int) * 256 + s[3] as int
  }

  /** The four bytes are the number's digits to the base 256, the highest first. */
  ghost predicate Encodes(s: seq<byte>, n: int) {
    |s| == 4 && n == s[0] as int * 0x100_0000 + s[1] as int * 0x1_0000 + s[2] as int * 0x100 + s[3] as int
  }

  lemma BigEndianEncodes(n: nat)
    requires n < WORDS
    ensures Encodes(BigEndian(n), n)
  {
  }

  lemma FromBigEndianEncodes(s: seq<byte>)
    requires |s| == 4
    ensures Encodes(s, FromBigEndian(s))
  {
  }

  lemma BigEndianRoundTrip(n: nat)
    requires n < WORDS
    ensures FromBigEndian(BigEndian(n)) == n
  {
  }

  const SIGNATURE: seq<byte> := [137, 80, 78, 71, 13, 10, 26, 10]
  const IHDR: seq<byte> := [73, 72, 68, 82]
  const IDAT: seq<byte> := [73, 68, 65, 84]
  const IEND: seq<byte> := [73, 69, 78, 68]

  datatype Chunk = Chunk(kind: seq<byte>, data: seq<byte>) {
    ghost predicate Valid() {
      |kind| == 4 && |data| < WORDS
    }
  }

  /** A 32-bit register, most significant byte first. */
  function WordBytes(w: Crc.Word): (s: seq<byte>)
    ensures |s| == 4
  {
    Crc.ValueIsBelow(w);
    PowerOfWord();
    BigEndian(Crc.Value(w))
  }

  lemma PowerOfWord()
    ensures Crc.Power(32) == WORDS
  {
    assert Crc.Power(8) == 256;
    PowerAdds(8, 8);
    PowerAdds(16, 16);
  }

  lemma {:induction false} PowerAdds(a: nat, b: nat)
    ensures Crc.Power(a + b) == Crc.Power(a) * Crc.Power(b)
  {
    if a != 0 {
      PowerAdds(a - 1, b);
    }
  }

  /** Length, type, data, CRC. */
  function Stored(c: Chunk): (s: seq<byte>)
    requires c.Valid()
    ensures |s| == 12 + |c.data|
  {
    BigEndian(|c.data|) + c.kind + c.data + WordBytes(Crc.Crc(c.kind + c.data))
  }

  /** The bytes are in the file at this place. */
  predicate Field(file: seq<byte>, at: nat, s: seq<byte>) {
    at + |s| <= |file| && file[at..at + |s|] == s
  }

  ghost predicate NumberAt(file: seq<byte>, at: nat, n: nat) {
    exists s :: Field(file, at, s) && Encodes(s, n)
  }

  /** At this place are the length of the data, the type and the data, and the CRC of type and data. */
  ghost predicate HasChunk(file: seq<byte>, at: nat, kind: seq<byte>, data: seq<byte>) {
    |kind| == 4 && HasParts(file, at, |data|, kind + data, Crc.Value(Crc.Crc(kind + data)))
  }

  ghost predicate HasParts(file: seq<byte>, at: nat, n: nat, body: seq<byte>, crc: nat) {
    NumberAt(file, at, n) && Field(file, at + 4, body) && NumberAt(file, at + 8 + n, crc)
  }

  lemma FieldOf(before: seq<byte>, s: seq<byte>, after: seq<byte>)
    ensures Field(before + s + after, |before|, s)
  {
  }

  lemma FieldIsMoved(file: seq<byte>, before: seq<byte>, after: seq<byte>, at: nat, s: seq<byte>)
    requires Field(file, at, s)
    ensures Field(before + file + after, |before| + at, s)
  {
    assert (before + file + after)[|before|..|before| + |file|] == file;
  }

  lemma NumberIsMoved(file: seq<byte>, before: seq<byte>, after: seq<byte>, at: nat, n: nat)
    requires NumberAt(file, at, n)
    ensures NumberAt(before + file + after, |before| + at, n)
  {
    var s :| Field(file, at, s) && Encodes(s, n);
    FieldIsMoved(file, before, after, at, s);
  }

  lemma WordIsBelow(w: Crc.Word)
    ensures Crc.Value(w) < WORDS && WordBytes(w) == BigEndian(Crc.Value(w))
  {
    Crc.ValueIsBelow(w);
    PowerOfWord();
  }

  lemma StoredIsChunk(c: Chunk)
    requires c.Valid()
    ensures HasChunk(Stored(c), 0, c.kind, c.data)
  {
    var crc := Crc.Crc(c.kind + c.data);
    PartsAreChunk(BigEndian(|c.data|), c.kind, c.data, WordBytes(crc));
    BigEndianEncodes(|c.data|);
    WordIsBelow(crc);
    BigEndianEncodes(Crc.Value(crc));
  }

  lemma PartsAreChunk(length: seq<byte>, kind: seq<byte>, data: seq<byte>, crc: seq<byte>)
    requires |length| == |kind| == |crc| == 4
    ensures var s := length + kind + data + crc;
            Field(s, 0, length) && Field(s, 4, kind + data) && Field(s, 8 + |data|, crc)
  {
    var s := length + kind + data + crc;
    assert s == [] + length + (kind + data + crc) == length + (kind + data) + crc == (length + kind + data) + crc + [];
    FieldOf([], length, kind + data + crc);
    FieldOf(length, kind + data, crc);
    FieldOf(length + kind + data, crc, []);
  }

  lemma ChunkIsMoved(file: seq<byte>, before: seq<byte>, after: seq<byte>, at: nat, kind: seq<byte>, data: seq<byte>)
    requires HasChunk(file, at, kind, data)
    ensures HasChunk(before + file + after, |before| + at, kind, data)
  {
    PartsAreMoved(file, before, after, at, |data|, kind + data, Crc.Value(Crc.Crc(kind + data)));
  }

  lemma PartsAreMoved(file: seq<byte>, before: seq<byte>, after: seq<byte>, at: nat, n: nat, body: seq<byte>, crc: nat)
    requires HasParts(file, at, n, body, crc)
    ensures HasParts(before + file + after, |before| + at, n, body, crc)
  {
    NumberIsMoved(file, before, after, at, n);
    FieldIsMoved(file, before, after, at + 4, body);
    NumberIsMoved(file, before, after, at + 8 + n, crc);
  }

  function StoredAll(chunks: seq<Chunk>): seq<byte>
    requires forall c :: c in chunks ==> c.Valid()
  {
    if chunks == [] then [] else Stored(chunks[0]) + StoredAll(chunks[1..])
  }

  // ---- The walk ----

  /** What the walk has found: the last header, and the image data so far. */
  datatype Found = Found(width: nat, height: nat, bpp: nat, packed: seq<byte>)

  const NOTHING := Found(0, 0, 0, [])

  /** A slice that ends with the bytes there are. */
  function Slice(s: seq<byte>, from: nat, to: nat): seq<byte> {
    var lo, hi := if from < |s| then from else |s|, if to < |s| then to else |s|;
    if lo <= hi then s[lo..hi] else []
  }

  /** Reading a type as ASCII drops the highest bit of each byte. */
  predicate Reads(kind: seq<byte>, name: seq<byte>) {
    |kind| == |name| && forall i :: 0 <= i < |kind| ==> kind[i] % 128 == name[i]
  }

  /** The fields of a header: 8 bits a sample, not interlaced, true colour with or without alpha; anything else
      fails. */
  function ReadHeader(found: Found, data: seq<byte>): Option<Found> {
    if |data| < 13 || data[8] != 8 || data[12] != 0 then None
    else
      var bpp := if data[9] == 6 then 4 else if data[9] == 2 then 3 else 0;
      if bpp == 0 then None
      else Some(found.(width := FromBigEndian(data[..4]), height := FromBigEndian(data[4..8]), bpp := bpp))
  }

  /** A header is accepted exactly when it is long enough, has 8 bits a sample, is not interlaced, and has the colours
      of type 2 or 6; then its size is read, and the bytes a pixel has. */
  lemma HeaderIsAccepted(found: Found, data: seq<byte>)
    ensures ReadHeader(found, data).Some? <==>
      |data| >= 13 && data[8] == 8 && data[12] == 0 && (data[9] == 2 || data[9] == 6)
    ensures ReadHeader(found, data).Some? ==>
      var f := ReadHeader(found, data).value;
      && Encodes(data[..4], f.width) && Encodes(data[4..8], f.height) && f.bpp == (if data[9] == 2 then 3 else 4)
      && f.packed == found.packed
  {
    if |data| >= 13 {
      FromBigEndianEncodes(data[..4]);
      FromBigEndianEncodes(data[4..8]);
    }
  }

  function Take(found: Found, kind: seq<byte>, data: seq<byte>): Option<Found> {
    if Reads(kind, IHDR) then ReadHeader(found, data)
    else if Reads(kind, IDAT) then Some(found.(packed := found.packed + data))
    else Some(found)
  }

  /** The walk over the rest of a file. It fails when a length cannot be read or a header is refused. */
  function Walk(rest: seq<byte>, found: Found): Option<Found>
    decreases |rest|
  {
    if rest == [] then Some(found)
    else if |rest| < 4 then None
    else
      var n := FromBigEndian(rest[..4]);
      var next := Take(found, Slice(rest, 4, 8), Slice(rest, 8, 8 + n));
      if next.None? then None else Walk(Slice(rest, 12 + n, |rest|), next.value)
  }

  function TakeAll(found: Found, chunks: seq<Chunk>): Option<Found>
    decreases |chunks|
  {
    if chunks == [] then Some(found)
    else
      var next := Take(found, chunks[0].kind, chunks[0].data);
      if next.None? then None else TakeAll(next.value, chunks[1..])
  }

  lemma StoredParts(c: Chunk, more: seq<byte>)
    requires c.Valid()
    ensures var s := Stored(c) + more;
            && s[..4] == BigEndian(|c.data|) && Slice(s, 4, 8) == c.kind && Slice(s, 8, 8 + |c.data|) == c.data
            && Slice(s, 12 + |c.data|, |s|) == more
  {
    PartsOf(BigEndian(|c.data|), c.kind, c.data, WordBytes(Crc.Crc(c.kind + c.data)), more);
  }

  lemma PartsOf(n: seq<byte>, kind: seq<byte>, data: seq<byte>, crc: seq<byte>, more: seq<byte>)
    requires |n| == |kind| == |crc| == 4
    ensures var s := n + kind + data + crc + more;
            && s[..4] == n && Slice(s, 4, 8) == kind && Slice(s, 8, 8 + |data|) == data
            && Slice(s, 12 + |data|, |s|) == more
  {
    var s := n + kind + data + crc + more;
    assert s[4..8] == kind;
    assert s[8..8 + |data|] == data;
    assert s[12 + |data|..] == more;
  }

  lemma WalkOne(found: Found, c: Chunk, rest: seq<byte>)
    requires c.Valid()
    ensures Walk(Stored(c) + rest, found) ==
      match Take(found, c.kind, c.data)
      case None => None
      case Some(f) => Walk(rest, f)
  {
    StoredParts(c, rest);
    BigEndianRoundTrip(|c.data|);
  }

  lemma StoredMore(chunks: seq<Chunk>, more: seq<byte>)
    requires chunks != [] && forall c :: c in chunks ==> c.Valid()
    ensures StoredAll(chunks) + more == Stored(chunks[0]) + (StoredAll(chunks[1..]) + more)
  {
  }

  /** The walk reads back exactly the chunks that were stored, and then goes on with what follows them. */
  lemma {:induction false} WalkOfMore(found: Found, chunks: seq<Chunk>, more: seq<byte>)
    requires forall c :: c in chunks ==> c.Valid()
    ensures Walk(StoredAll(chunks) + more, found) ==
      match TakeAll(found, chunks)
      case None => None
      case Some(f) => Walk(more, f)
    decreases |chunks|
  {
    if chunks == [] {
      assert StoredAll(chunks) + more == more;
    } else {
      var c := chunks[0];
      var next := Take(found, c.kind, c.data);
      StoredMore(chunks, more);
      WalkOne(found, c, StoredAll(chunks[1..]) + more);
      if next.Some? {
        WalkOfMore(next.value, chunks[1..], more);
      }
    }
  }

  lemma WalkReadsChunks(found: Found, chunks: seq<Chunk>)
    requires forall c :: c in chunks ==> c.Valid()
    ensures Walk(StoredAll(chunks), found) == TakeAll(found, chunks)
  {
    WalkOfMore(found, chunks, []);
    assert StoredAll(chunks) + [] == StoredAll(chunks);
  }

  /** A file that ends inside a length is refused. */
  lemma CutLengthIsRefused(found: Found, chunks: seq<Chunk>, more: seq<byte>)
    requires (forall c :: c in chunks ==> c.Valid()) && 0 < |more| < 4
    ensures Walk(StoredAll(chunks) + more, found) == None
  {
    WalkOfMore(found, chunks, more);
  }

  /** One that ends later in a chunk is read with the data there is. */
  lemma CutDataIsTaken(found: Found, chunks: seq<Chunk>, c: Chunk, n: nat)
    requires (forall d :: d in chunks ==> d.Valid()) && c.Valid() && n <= |c.data|
    ensures Walk(StoredAll(chunks) + Stored(c)[..8 + n], found) == TakeAll(found, chunks + [Chunk(c.kind, c.data[..n])])
  {
    WalkOfMore(found, chunks, Stored(c)[..8 + n]);
    TakeOneMore(found, chunks, Chunk(c.kind, c.data[..n]));
    if TakeAll(found, chunks).Some? {
      WalkOfCut(TakeAll(found, chunks).value, c, n);
    }
  }

  lemma WalkOfCut(found: Found, c: Chunk, n: nat)
    requires c.Valid() && n <= |c.data|
    ensures Walk(Stored(c)[..8 + n], found) == Take(found, c.kind, c.data[..n])
  {
    CutParts(BigEndian(|c.data|), c.kind, c.data, WordBytes(Crc.Crc(c.kind + c.data)), n);
    BigEndianRoundTrip(|c.data|);
  }

  lemma CutParts(length: seq<byte>, kind: seq<byte>, data: seq<byte>, crc: seq<byte>, n: nat)
    requires |length| == |kind| == |crc| == 4 && n <= |data|
    ensures var cut := (length + kind + data + crc)[..8 + n];
            && cut[..4] == length && Slice(cut, 4, 8) == kind && Slice(cut, 8, 8 + |data|) == data[..n]
            && Slice(cut, 12 + |data|, |cut|) == []
  {
    var cut := length + kind + data[..n];
    assert (length + kind + data + crc)[..8 + n] == cut;
    assert cut[4..8] == kind && cut[8..] == data[..n];
  }

  lemma {:induction false} TakeOneMore(found: Found, chunks: seq<Chunk>, c: Chunk)
    ensures TakeAll(found, chunks + [c]) ==
      match TakeAll(found, chunks)
      case None => None
      case Some(f) => Take(f, c.kind, c.data)
    decreases |chunks|
  {
    if chunks == [] {
      assert chunks + [c] == [c] && [c][1..] == [];
    } else {
      var next := Take(found, chunks[0].kind, chunks[0].data);
      assert (chunks + [c])[1..] == chunks[1..] + [c];
      if next.Some? {
        TakeOneMore(next.value, chunks[1..], c);
      }
    }
  }

  /** The highest bits of a type do not matter. */
  lemma HighBitsAreDropped(kind: seq<byte>, other: seq<byte>, name: seq<byte>)
    requires |kind| == |other|
    requires forall i :: 0 <= i < |kind| ==> other[i] == kind[i] || other[i] as int == kind[i] as int + 128
    ensures Reads(other, name) == Reads(kind, name)
  {
    forall i | 0 <= i < |kind|
      ensures other[i] % 128 == kind[i] % 128
    {
    }
  }

  // ---- Splitting the image data ----

  /** The image data of a list of chunks, joined. */
  function Packed(chunks: seq<Chunk>): seq<byte>
    decreases |chunks|
  {
    if chunks == [] then [] else DataOf(chunks[0]) + Packed(chunks[1..])
  }

  function DataOf(c: Chunk): seq<byte> {
    if Reads(c.kind, IHDR) || !Reads(c.kind, IDAT) then [] else c.data
  }

  function Headers(chunks: seq<Chunk>): seq<seq<byte>>
    decreases |chunks|
  {
    if chunks == [] then [] else HeaderOf(chunks[0]) + Headers(chunks[1..])
  }

  function HeaderOf(c: Chunk): seq<seq<byte>> {
    if Reads(c.kind, IHDR) then [c.data] else []
  }

  lemma PartsOfFirst(c: Chunk, rest: seq<Chunk>)
    ensures Headers([c] + rest) == HeaderOf(c) + Headers(rest) && Packed([c] + rest) == DataOf(c) + Packed(rest)
  {
    assert ([c] + rest)[1..] == rest;
  }

  lemma KindsDiffer()
    ensures Reads(IHDR, IHDR) && Reads(IDAT, IDAT)
    ensures !Reads(IDAT, IHDR) && !Reads(IEND, IHDR) && !Reads(IEND, IDAT)
  {
    assert IDAT[1] % 128 != IHDR[1] && IEND[1] % 128 != IHDR[1] && IEND[1] % 128 != IDAT[1];
  }

  function ReadHeaders(found: Found, headers: seq<seq<byte>>): Option<Found>
    decreases |headers|
  {
    if headers == [] then Some(found)
    else
      var next := ReadHeader(found, headers[0]);
      if next.None? then None else ReadHeaders(next.value, headers[1..])
  }

  lemma {:induction false} ReadHeadersKeepsPacked(found: Found, headers: seq<seq<byte>>, packed: seq<byte>)
    ensures ReadHeaders(found.(packed := packed), headers) ==
      match ReadHeaders(found, headers)
      case None => None
      case Some(f) => Some(f.(packed := packed))
    ensures ReadHeaders(found, headers).Some? ==> ReadHeaders(found, headers).value.packed == found.packed
    decreases |headers|
  {
    if headers != [] {
      var next := ReadHeader(found, headers[0]);
      if next.Some? {
        ReadHeadersKeepsPacked(next.value, headers[1..], packed);
      }
    }
  }

  /** What reading headers, and then image data, finds. */
  function ReadParts(found: Found, headers: seq<seq<byte>>, packed: seq<byte>): Option<Found> {
    match ReadHeaders(found, headers)
    case None => None
    case Some(f) => Some(f.(packed := found.packed + packed))
  }

  lemma HeaderFirst(found: Found, header: seq<byte>, headers: seq<seq<byte>>, packed: seq<byte>)
    ensures ReadParts(found, [header] + headers, packed) ==
      match ReadHeader(found, header)
      case None => None
      case Some(next) => ReadParts(next, headers, packed)
  {
    assert ([header] + headers)[1..] == headers;
  }

  lemma DataFirst(found: Found, data: seq<byte>, headers: seq<seq<byte>>, packed: seq<byte>)
    ensures ReadParts(found, headers, data + packed)
         == ReadParts(found.(packed := found.packed + data), headers, packed)
  {
    ReadHeadersKeepsPacked(found, headers, found.packed + data);
    assert found.packed + (data + packed) == found.packed + data + packed;
  }

  /** Of the chunks, only the headers and the joined image data matter. */
  lemma {:induction false} OnlyDataMatters(found: Found, chunks: seq<Chunk>)
    ensures TakeAll(found, chunks) == ReadParts(found, Headers(chunks), Packed(chunks))
    decreases |chunks|
  {
    if chunks == [] {
      assert found.packed + [] == found.packed;
    } else {
      var c, rest := chunks[0], chunks[1..];
      var next := Take(found, c.kind, c.data);
      if next.Some? {
        OnlyDataMatters(next.value, rest);
      }
      FirstMatters(found, c, Headers(rest), Packed(rest));
    }
  }

  lemma FirstMatters(found: Found, c: Chunk, headers: seq<seq<byte>>, packed: seq<byte>)
    ensures ReadParts(found, HeaderOf(c) + headers, DataOf(c) + packed) ==
      match Take(found, c.kind, c.data)
      case None => None
      case Some(next) => ReadParts(next, headers, packed)
  {
    if Reads(c.kind, IHDR) {
      HeaderFirst(found, c.data, headers, packed);
      assert DataOf(c) + packed == packed;
    } else {
      DataFirst(found, DataOf(c), headers, packed);
      assert HeaderOf(c) + headers == headers && found.packed + [] == found.packed;
    }
  }

  /** Cutting the image data into other chunks, or adding chunks of other types, changes nothing. */
  lemma SplitDoesNotMatter(found: Found, a: seq<Chunk>, b: seq<Chunk>)
    requires forall c :: c in a || c in b ==> c.Valid()
    requires Headers(a) == Headers(b) && Packed(a) == Packed(b)
    ensures Walk(StoredAll(a), found) == Walk(StoredAll(b), found)
  {
    WalkReadsChunks(found, a);
    WalkReadsChunks(found, b);
    OnlyDataMatters(found, a);
    OnlyDataMatters(found, b);
  }
}
