/** PNG chunks: how a file is made of them, and the loader's search for one. */
module Chunks {
  import opened Bits
  import opened BitWriter
  import opened Filters
  import opened Wrappers

  const SIGNATURE: seq<byte> := [0x89, 0x50, 0x4e, 0x47, 0x0d, 0x0a, 0x1a, 0x0a]
  const IHDR: seq<byte> := [0x49, 0x48, 0x44, 0x52]
  const IDAT: seq<byte> := [0x49, 0x44, 0x41, 0x54]
  const IEND: seq<byte> := [0x49, 0x45, 0x4e, 0x44]
  const PLTE: seq<byte> := [0x50, 0x4c, 0x54, 0x45]
  const TRNS: seq<byte> := [0x74, 0x52, 0x4e, 0x53]

  function Ascii(s: string): seq<byte>
    requires forall i :: 0 <= i < |s| ==> s[i] as int < 128
  {
    seq(|s|, i requires 0 <= i < |s| => s[i] as int)
  }

  /** The signature of section 3.1 of RFC 2083 and the names of section 4.1, in letters. */
  lemma NamesInLetters()
    ensures SIGNATURE == [137] + Ascii("PNG\r\n") + [26] + Ascii("\n")
    ensures IHDR == Ascii("IHDR") && PLTE == Ascii("PLTE") && IDAT == Ascii("IDAT") && IEND == Ascii("IEND")
    ensures TRNS == Ascii("tRNS")
  {}

  /** A chunk of section 3.2 of RFC 2083: length, type, data and check value. */
  function ChunkBytes(id: seq<byte>, data: seq<byte>, crc: nat): (s: seq<byte>)
    requires |id| == 4 && |data| < 0x1_0000_0000 && crc < 0x1_0000_0000
    ensures |s| == |data| + 12
  {
    BigEndian(|data|) + id + data + BigEndian(crc)
  }

  datatype Chunk = Chunk(id: seq<byte>, data: seq<byte>, crc: nat)

  ghost predicate ChunkOk(c: Chunk) { |c.id| == 4 && |c.data| < 0x1_0000_0000 && c.crc < 0x1_0000_0000 }

  ghost predicate ChunksOk(chunks: seq<Chunk>) { forall i :: 0 <= i < |chunks| ==> ChunkOk(chunks[i]) }

  function FileBytes(chunks: seq<Chunk>): seq<byte>
    requires ChunksOk(chunks)
  {
    if chunks == [] then [] else ChunkBytes(chunks[0].id, chunks[0].data, chunks[0].crc) + FileBytes(chunks[1..])
  }

  /** get32. */
  function Get32(s: seq<byte>): nat
    requires |s| >= 4
  {
    (s[0] as nat) * 0x1000000 + (s[1] as nat) * 0x10000 + (s[2] as nat) * 0x100 + s[3] as nat
  }

  lemma Get32Back(v: nat)
    requires v < 0x1_0000_0000
    ensures Get32(BigEndian(v)) == v
  {
    var q1 := v / 0x100;
    var q2 := q1 / 0x100;
    var q3 := q2 / 0x100;
    assert v / 0x10000 == q2 && v / 0x1000000 == q3;
    assert v == q1 * 0x100 + v % 0x100 && q1 == q2 * 0x100 + q1 % 0x100 && q2 == q3 * 0x100 + q2 % 0x100;
    assert q3 < 0x100;
  }

  predicate Matches(c: Chunk, id: seq<byte>, minlen: nat) { c.id == id && |c.data| >= minlen }

  /** The first chunk of that type and size, or the number of chunks. */
  function FirstMatch(chunks: seq<Chunk>, id: seq<byte>, minlen: nat): (k: nat)
    ensures k <= |chunks|
    ensures k < |chunks| ==> Matches(chunks[k], id, minlen)
    ensures forall j :: 0 <= j < k ==> !Matches(chunks[j], id, minlen)
  {
    if chunks == [] || Matches(chunks[0], id, minlen) then 0 else 1 + FirstMatch(chunks[1..], id, minlen)
  }

  /** The file from the data of chunk `k` on. */
  function FromData(chunks: seq<Chunk>, k: nat): seq<byte>
    requires ChunksOk(chunks) && k < |chunks|
  {
    chunks[k].data + (BigEndian(chunks[k].crc) + FileBytes(chunks[k + 1..]))
  }

  lemma FirstChunk(file: seq<byte>, p: nat, chunks: seq<Chunk>)
    requires p <= |file| && ChunksOk(chunks) && file[p..] == FileBytes(chunks) && chunks != []
    ensures p + 12 + |chunks[0].data| <= |file| && ChunksOk(chunks[1..])
    ensures Get32(file[p..p + 4]) == |chunks[0].data| && file[p + 4..p + 8] == chunks[0].id
    ensures file[p + 8..p + 8 + |chunks[0].data|] == chunks[0].data
    ensures file[p + 12 + |chunks[0].data|..] == FileBytes(chunks[1..]) && file[p + 8..] == FromData(chunks, 0)
  {
    var c, rest := chunks[0], FileBytes(chunks[1..]);
    var n := |c.data|;
    Get32Back(n);
    hide Get32, BigEndian;
    var s := ChunkBytes(c.id, c.data, c.crc) + rest;
    assert file[p..] == s;
    hide FileBytes;
    PartsOfChunk(c, rest);
    hide ChunkBytes;
    Tails(file, p, 0, 4);
    Tails(file, p, 4, 8);
    Tails(file, p, 8, 8 + n);
    Tails(file, p, 8, |s|);
    Tails(file, p, 12 + n, |s|);
  }

  lemma PartsOfChunk(c: Chunk, rest: seq<byte>)
    requires ChunkOk(c)
    ensures var n, s := |c.data|, ChunkBytes(c.id, c.data, c.crc) + rest;
            && s[0..4] == BigEndian(n) && s[4..8] == c.id && s[8..8 + n] == c.data && s[12 + n..] == rest
            && s[8..] == c.data + (BigEndian(c.crc) + rest)
  {
    hide BigEndian;
    var n, s := |c.data|, ChunkBytes(c.id, c.data, c.crc) + rest;
    assert s == BigEndian(n) + (c.id + (c.data + (BigEndian(c.crc) + rest)));
  }

  lemma Tails(file: seq<byte>, p: nat, i: nat, j: nat)
    requires p <= |file| && i <= j <= |file| - p
    ensures file[p..][i..j] == file[p + i..p + j]
  {
    Subslice(file, p, |file|, i, j);
  }

  /** What a search finds: where the first matching chunk's data lies, and where the chunk ends. */
  ghost predicate Found(file: seq<byte>, found: Option<nat>, p: nat, chunks: seq<Chunk>, id: seq<byte>, minlen: nat)
    requires ChunksOk(chunks)
  {
    var k := FirstMatch(chunks, id, minlen);
    && p <= |file|
    && (found.None? <==> k == |chunks|)
    && (found.Some? ==>
          var n, at := |chunks[k].data|, found.value;
          && 8 <= at <= at + n <= |file| && Get32(file[at - 8..at - 4]) == n && file[at..at + n] == chunks[k].data
          && file[at..] == FromData(chunks, k) && file[p..] == FileBytes(chunks[k + 1..]))
  }

  /** find: the first matching chunk at or behind `start`. */
  method Find(file: seq<byte>, start: nat, id: seq<byte>, minlen: nat, ghost chunks: seq<Chunk>)
    returns (found: Option<nat>, p: nat)
    requires start <= |file| && ChunksOk(chunks) && file[start..] == FileBytes(chunks) && |id| == 4
    ensures Found(file, found, p, chunks, id, minlen)
  {
    hide FileBytes, Get32;
    p := start;
    ghost var left := chunks;
    ghost var k := FirstMatch(chunks, id, minlen);
    assert chunks[0..] == chunks;
    while p < |file|
      invariant p <= |file| && ChunksOk(left) && file[p..] == FileBytes(left)
      invariant |left| <= |chunks| && left == chunks[|chunks| - |left|..]
      invariant k == |chunks| - |left| + FirstMatch(left, id, minlen)
      decreases |left|
    {
      NoBytesNoChunks(left);
      FirstChunk(file, p, left);
      var len := Get32(file[p..p + 4]);
      var at := p;
      p := p + len + 12;
      if file[at + 4..at + 8] == id && len >= minlen && p <= |file| {
        assert left[1..] == chunks[k + 1..];
        return Some(at + 8), p;
      }
      assert left[1..] == chunks[|chunks| - |left| + 1..];
      left := left[1..];
    }
    NoBytesNoChunks(left);
    found := None;
  }

  lemma NoBytesNoChunks(chunks: seq<Chunk>)
    requires ChunksOk(chunks)
    ensures FileBytes(chunks) == [] <==> chunks == []
  {}

  // ---------- joining the data chunks ----------

  /** The data of all data chunks, in order. */
  function Joined(chunks: seq<Chunk>): seq<byte> {
    var k := FirstMatch(chunks, IDAT, 0);
    if k == |chunks| then [] else chunks[k].data + Joined(chunks[k + 1..])
  }

  ghost predicate HasData(chunks: seq<Chunk>) { FirstMatch(chunks, IDAT, 0) < |chunks| }

  /** The loop that joins the data chunks. */
  method JoinData(file: seq<byte>, start: nat, ghost chunks: seq<Chunk>) returns (data: Option<seq<byte>>)
    requires start <= |file| && ChunksOk(chunks) && file[start..] == FileBytes(chunks)
    ensures data.Some? <==> HasData(chunks)
    ensures data.Some? ==> data.value == Joined(chunks)
  {
    hide FileBytes, Get32, FirstMatch, Joined, Found, HasData;
    var idat, p := Find(file, start, IDAT, 0, chunks);
    var bytes: seq<byte> := [];
    data := None;
    ghost var left := chunks;
    while idat.Some?
      invariant ChunksOk(left) && Found(file, idat, p, left, IDAT, 0)
      invariant data.None? ==> left == chunks && bytes == []
      invariant data.Some? ==> HasData(chunks) && data.value == bytes
      invariant bytes + Joined(left) == Joined(chunks)
      decreases |left|
    {
      ghost var k := FirstMatch(left, IDAT, 0);
      FoundData(file, idat, p, left);
      JoinedFirst(left);
      ghost var d, rest := left[k].data, left[k + 1..];
      var len := Get32(file[idat.value - 8..idat.value - 4]);
      bytes := bytes + file[idat.value..idat.value + len];
      data := Some(bytes);
      assert bytes + Joined(rest) == Joined(chunks);
      left := rest;
      idat, p := Find(file, p, IDAT, 0, left);
    }
    NothingFound(file, idat, p, left);
    JoinedFirst(left);
  }

  lemma FoundData(file: seq<byte>, found: Option<nat>, p: nat, chunks: seq<Chunk>)
    requires ChunksOk(chunks) && found.Some? && Found(file, found, p, chunks, IDAT, 0)
    ensures HasData(chunks) && FirstMatch(chunks, IDAT, 0) < |chunks|
    ensures var k := FirstMatch(chunks, IDAT, 0);
            var n, at := |chunks[k].data|, found.value;
            && 8 <= at <= at + n <= |file| && Get32(file[at - 8..at - 4]) == n && file[at..at + n] == chunks[k].data
            && p <= |file| && ChunksOk(chunks[k + 1..]) && file[p..] == FileBytes(chunks[k + 1..])
  {
    hide FirstMatch, FileBytes, Get32, Joined;
  }

  lemma JoinedFirst(chunks: seq<Chunk>)
    ensures HasData(chunks) ==>
              Joined(chunks)
                == chunks[FirstMatch(chunks, IDAT, 0)].data + Joined(chunks[FirstMatch(chunks, IDAT, 0) + 1..])
    ensures !HasData(chunks) ==> Joined(chunks) == []
  {
    hide FirstMatch;
  }

  lemma NothingFound(file: seq<byte>, found: Option<nat>, p: nat, chunks: seq<Chunk>)
    requires ChunksOk(chunks) && found.None? && Found(file, found, p, chunks, IDAT, 0)
    ensures !HasData(chunks)
  {
    hide FirstMatch, FileBytes, Get32, Joined;
  }

  /** The loop of png_pixels over the chunks: it looks at every one and keeps the data chunks. */
  method JoinDataPlainly(file: seq<byte>, start: nat, ghost chunks: seq<Chunk>) returns (stream: seq<byte>)
    requires start <= |file| && ChunksOk(chunks) && file[start..] == FileBytes(chunks)
    ensures stream == Joined(chunks)
  {
    hide FileBytes, Get32, FirstMatch;
    stream := [];
    var at: nat := start;
    ghost var left := chunks;
    hide Joined;
    while at < |file|
      invariant at <= |file| && ChunksOk(left) && file[at..] == FileBytes(left)
      invariant stream + Joined(left) == Joined(chunks)
      decreases |left|
    {
      NoBytesNoChunks(left);
      FirstChunk(file, at, left);
      JoinedStep(left);
      var length := Get32(file[at..at + 4]);
      if file[at + 4..at + 8] == IDAT {
        stream := stream + file[at + 8..at + 8 + length];
      }
      at := at + (12 + length);
      left := left[1..];
    }
    NoBytesNoChunks(left);
    NothingJoined();
  }

  lemma NothingJoined()
    ensures Joined([]) == []
  {}

  /** Joining one chunk after another. */
  lemma {:induction false} MatchStep(chunks: seq<Chunk>)
    requires chunks != []
    ensures FirstMatch(chunks, IDAT, 0) == if chunks[0].id == IDAT then 0 else 1 + FirstMatch(chunks[1..], IDAT, 0)
  {}

  lemma {:induction false} JoinedAt(chunks: seq<Chunk>)
    ensures
      var k := FirstMatch(chunks, IDAT, 0);
      Joined(chunks) == if k < |chunks| then chunks[k].data + Joined(chunks[k + 1..]) else []
  {
    hide FirstMatch, Matches;
  }

  lemma {:induction false} JoinedStep(chunks: seq<Chunk>)
    requires chunks != []
    ensures Joined(chunks) == (if chunks[0].id == IDAT then chunks[0].data else []) + Joined(chunks[1..])
  {
    var rest, k := chunks[1..], FirstMatch(chunks, IDAT, 0);
    MatchStep(chunks);
    JoinedAt(chunks);
    JoinedAt(rest);
    hide FirstMatch, Joined;
    if chunks[0].id != IDAT && k < |chunks| {
      assert chunks[k + 1..] == rest[k..];
    }
  }
}
