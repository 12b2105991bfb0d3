/** How a file is cut into the payloads of numbered DATA packets. */
module Chunks {
  import opened Packet

  const CHUNK := 512

  function Min(a: int, b: int): int {
    if a < b then a else b
  }

  // A non-empty file ends with a chunk shorter than CHUNK, which is empty when the length is a multiple of it.
  function NumChunks(file: Bytes): nat {
    if file == [] then 0 else |file| / CHUNK + 1
  }

  function Prefix(file: Bytes, count: nat): Bytes {
    file[..Min(CHUNK * count, |file|)]
  }

  // Chunks are numbered from 1, as blocks are.
  function Chunk(file: Bytes, k: nat): Bytes
    requires 1 <= k <= NumChunks(file)
  {
    file[CHUNK * (k - 1)..Min(CHUNK * k, |file|)]
  }

  function DataPacket(file: Bytes, k: nat): Bytes
    requires 1 <= k <= NumChunks(file)
  {
    EncodeData(k % 65536, Chunk(file, k))
  }

  lemma ChunkLength(file: Bytes, k: nat)
    requires 1 <= k <= NumChunks(file)
    ensures k < NumChunks(file) ==> |Chunk(file, k)| == CHUNK
    ensures |Chunk(file, NumChunks(file))| == |file| % CHUNK < CHUNK
  {
  }

  lemma PrefixGrows(file: Bytes, count: nat)
    requires count < NumChunks(file)
    ensures Prefix(file, count + 1) == Prefix(file, count) + Chunk(file, count + 1)
  {
  }

  lemma PrefixComplete(file: Bytes, count: nat)
    ensures count >= NumChunks(file) ==> Prefix(file, count) == file
    ensures Prefix(file, count) == file <==> |file| <= CHUNK * count
  {
  }

  function Payloads(file: Bytes, count: nat): (payloads: seq<Bytes>)
    requires count <= NumChunks(file)
    ensures |payloads| == count
    ensures forall i | 0 <= i < count :: payloads[i] == Chunk(file, i + 1)
  {
    if count == 0 then [] else Payloads(file, count - 1) + [Chunk(file, count)]
  }

  function Concat(parts: seq<Bytes>): Bytes {
    if parts == [] then [] else Concat(parts[..|parts| - 1]) + parts[|parts| - 1]
  }

  lemma {:induction false} PayloadsConcat(file: Bytes, count: nat)
    requires count <= NumChunks(file)
    ensures Concat(Payloads(file, count)) == Prefix(file, count)
  {
    if count > 0 {
      PayloadsConcat(file, count - 1);
      PrefixGrows(file, count - 1);
      assert Payloads(file, count)[..count - 1] == Payloads(file, count - 1);
    }
  }

  /**
    A non-empty file is the concatenation of length / 512 + 1 payloads, all but the last of 512 bytes and the
    last one shorter; an empty file has no payload at all.
   */
  lemma {:induction false} ChunkingIsExact(file: Bytes)
    ensures Concat(Payloads(file, NumChunks(file))) == file
    ensures NumChunks(file) == 0 <==> file == []
    ensures file != [] ==> NumChunks(file) == |file| / CHUNK + 1
    ensures forall i | 0 <= i < NumChunks(file) ::
              |Payloads(file, NumChunks(file))[i]| == if i + 1 < NumChunks(file) then CHUNK else |file| % CHUNK
  {
    PayloadsConcat(file, NumChunks(file));
    PrefixComplete(file, NumChunks(file));
    forall i | 0 <= i < NumChunks(file)
      ensures |Payloads(file, NumChunks(file))[i]| == if i + 1 < NumChunks(file) then CHUNK else |file| % CHUNK
    {
      ChunkLength(file, i + 1);
    }
  }
}
