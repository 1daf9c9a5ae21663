/** Byte contents of regular files and the POSIX.1-2017 meaning of pread, pwrite
    and ftruncate on them, including the zero fill of gaps. */
module Posix {

  newtype Byte = b: int | 0 <= b < 0x100

  type Bytes = seq<Byte>

  type Path = string

  function Min(a: int, b: int): int {
    if a <= b then a else b
  }

  /** ftruncate: cut the tail off, or extend with zero bytes. */
  function Resize(data: Bytes, length: nat): Bytes {
    if length <= |data| then data[..length] else data + seq(length - |data|, _ => 0 as Byte)
  }

  /** pwrite: nothing happens for an empty chunk; a gap before `offset` reads as zero bytes. */
  function Overwrite(data: Bytes, offset: nat, chunk: Bytes): Bytes {
    if chunk == [] then
      data
    else
      var base := if |data| < offset + |chunk| then Resize(data, offset + |chunk|) else data;
      base[..offset] + chunk + base[offset + |chunk|..]
  }

  /** pread: short at the end of the file, empty past it. */
  function ReadAt(data: Bytes, offset: nat, size: nat): Bytes {
    if |data| <= offset then [] else data[offset..Min(offset + size, |data|)]
  }

  /** pread returns the bytes from `offset` on, as many as are asked for and exist. */
  lemma ReadBytes(data: Bytes, offset: nat, size: nat, k: nat)
    ensures k < |ReadAt(data, offset, size)| <==> k < size && offset + k < |data|
    ensures k < |ReadAt(data, offset, size)| ==> ReadAt(data, offset, size)[k] == data[offset + k]
  {
  }

  /** What pwrite stored is what pread gives back, whatever was there before. */
  lemma ReadBack(data: Bytes, offset: nat, chunk: Bytes)
    ensures ReadAt(Overwrite(data, offset, chunk), offset, |chunk|) == chunk
  {
  }

  lemma OverwriteAppends(data: Bytes, chunk: Bytes)
    ensures Overwrite(data, |data|, chunk) == data + chunk
  {
  }

  lemma OverwriteByte(data: Bytes, offset: nat, b: Byte)
    requires offset < |data|
    ensures Overwrite(data, offset, [b][..1]) == data[offset := b]
  {
  }
}
