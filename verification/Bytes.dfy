/**
 Bytes, and the plain byte-sequence file that every other module is compared with:
 a read returns what the file holds at an offset, a write replaces or appends.
 */
module Bytes {

  type Byte = b: int | 0 <= b < 256

  type Data = seq<Byte>

  type Path = string

  /** One past the largest 64-bit unsigned integer. */
  const UINT64: int := 0x1_0000_0000_0000_0000

  function Min(a: int, b: int): (r: int)
    ensures r <= a && r <= b && (r == a || r == b)
  {
    if a <= b then a else b
  }

  function Max(a: int, b: int): (r: int)
    ensures r >= a && r >= b && (r == a || r == b)
  {
    if a >= b then a else b
  }

  /** The bytes a plain file returns for a read of `count` bytes at `offset`. */
  function PlainRead(file: Data, offset: nat, count: nat): (r: Data)
    ensures |r| <= count
    ensures offset < |file| ==> offset + |r| <= |file| && r == file[offset..offset + |r|]
    ensures |r| < count ==> offset + |r| >= |file|
    ensures offset >= |file| ==> r == []
  {
    if offset >= |file| then [] else file[offset..Min(offset + count, |file|)]
  }

  /** A plain file after writing `data` at an offset that leaves no hole. */
  function PlainWrite(file: Data, offset: nat, data: Data): (r: Data)
    requires offset <= |file|
    ensures |r| == Max(|file|, offset + |data|)
    ensures r[offset..offset + |data|] == data
    ensures forall i :: 0 <= i < |file| && !(offset <= i < offset + |data|) ==> r[i] == file[i]
  {
    file[..offset] + data + (if offset + |data| <= |file| then file[offset + |data|..] else [])
  }

  /** Two writes, the second where the first ended, are one write of both payloads. */
  lemma PlainWriteTwice(file: Data, offset: nat, d: Data, e: Data)
    requires offset <= |file|
    ensures PlainWrite(PlainWrite(file, offset, d), offset + |d|, e) == PlainWrite(file, offset, d + e)
  {
    var two := PlainWrite(PlainWrite(file, offset, d), offset + |d|, e);
    var one := PlainWrite(file, offset, d + e);
    forall i | 0 <= i < |one| ensures two[i] == one[i] {
      if offset <= i < offset + |d| {
        assert PlainWrite(file, offset, d)[i] == PlainWrite(file, offset, d)[offset..offset + |d|][i - offset];
        assert one[i] == one[offset..offset + |d + e|][i - offset];
      }
    }
  }

  /** Two reads, the second where the first ended, are one read of both lengths. */
  lemma PlainReadTwice(file: Data, offset: nat, m: nat, n: nat)
    requires offset + m <= |file|
    ensures PlainRead(file, offset, m) + PlainRead(file, offset + m, n) == PlainRead(file, offset, m + n)
  {
  }

  /** The first bytes of a file held aside, and a read of the rest, are one read. */
  lemma PlainReadRest(file: Data, offset: nat, head: Data, count: nat, asked: nat)
    requires head != [] ==> offset + |head| <= |file| && head == file[offset..offset + |head|]
    requires |head| <= count <= |head| + asked
    ensures var rest := PlainRead(file, offset + |head|, asked);
            PlainRead(file, offset, count) == head + rest[..Min(count - |head|, |rest|)]
  {
    hide PlainRead;
    PlainReadPrefix(file, offset + |head|, count - |head|, asked);
    PlainReadHead(file, offset, head, count - |head|);
  }

  lemma PlainReadHead(file: Data, offset: nat, head: Data, count: nat)
    requires head != [] ==> offset + |head| <= |file| && head == file[offset..offset + |head|]
    ensures PlainRead(file, offset, |head| + count) == head + PlainRead(file, offset + |head|, count)
  {
    if head != [] {
      assert PlainRead(file, offset, |head|) == head;
      hide PlainRead;
      PlainReadTwice(file, offset, |head|, count);
    } else {
      assert head + PlainRead(file, offset + |head|, count) == PlainRead(file, offset, count);
    }
  }

  lemma PlainReadPrefix(file: Data, offset: nat, count: nat, asked: nat)
    requires count <= asked
    ensures var rest := PlainRead(file, offset, asked);
            PlainRead(file, offset, count) == rest[..Min(count, |rest|)]
  {
  }

  /** memcpy of `d` to offset `at` of a buffer. */
  function Overlay(buffer: Data, at: nat, d: Data): (r: Data)
    requires at + |d| <= |buffer|
    ensures |r| == |buffer|
  {
    buffer[..at] + d + buffer[at + |d|..]
  }

  lemma OverlayAt(buffer: Data, at: nat, d: Data, x: nat)
    requires at + |d| <= |buffer| && x < |buffer|
    ensures Overlay(buffer, at, d)[x] == if at <= x < at + |d| then d[x - at] else buffer[x]
  {
  }
}
