/** Keys are byte strings read four bits at a time, high half first. */
module Nibbles {
  import opened MachineInts
  import opened Trie

  function Unpack(key: seq<Byte>, idx: nat): Nib
    requires idx < 2 * |key|
  {
    if idx % 2 == 0 then key[idx / 2] / 16 else key[idx / 2] % 16
  }

  /** The byte `b` with the half that belongs to nibble `idx` replaced. */
  function PackByte(b: Byte, idx: nat, value: Nib): Byte {
    if idx % 2 == 0 then b % 16 + 16 * value else b / 16 * 16 + value
  }

  /** The `len` nibbles of `key` from `offset` on. */
  function NibbleStr(key: seq<Byte>, offset: nat, len: nat): (r: Key)
    requires offset + len <= 2 * |key|
    ensures |r| == len
    ensures forall i :: 0 <= i < len ==> r[i] == Unpack(key, offset + i)
  {
    seq<Nib>(len, i requires 0 <= i < len => Unpack(key, offset + i))
  }

  /** The nibbles of a byte are its digits to base 16, the high one first. */
  lemma NibblesOfByte(key: seq<Byte>, k: nat)
    requires k < |key|
    ensures key[k] == 16 * Unpack(key, 2 * k) + Unpack(key, 2 * k + 1)
  {
  }

  /** Packing a nibble sets it and leaves every other nibble of the string alone. */
  lemma PackThenUnpack(key: seq<Byte>, idx: nat, value: Nib, j: nat)
    requires idx < 2 * |key| && j < 2 * |key|
    ensures Unpack(key[idx / 2 := PackByte(key[idx / 2], idx, value)], j)
         == if j == idx then value else Unpack(key, j)
  {
    var b := key[idx / 2];
    assert (b % 16 + 16 * value) / 16 == value && (b % 16 + 16 * value) % 16 == b % 16;
    assert (b / 16 * 16 + value) / 16 == b / 16 && (b / 16 * 16 + value) % 16 == value;
  }

  /** Writing back the nibble already there changes nothing. */
  lemma UnpackThenPack(key: seq<Byte>, idx: nat)
    requires idx < 2 * |key|
    ensures key[idx / 2 := PackByte(key[idx / 2], idx, Unpack(key, idx))] == key
  {
  }

  /** Two strings of nibbles agree when their whole bytes do. */
  lemma BytesDetermineNibbles(a: seq<Byte>, b: seq<Byte>, offset: nat, len: nat)
    requires offset % 2 == 0 && offset + len <= 2 * |a| && (len + 1) / 2 <= |b|
    requires a[offset / 2..offset / 2 + (len + 1) / 2] == b[..(len + 1) / 2]
    ensures NibbleStr(a, offset, len) == NibbleStr(b, 0, len)
  {
    forall i | 0 <= i < len ensures Unpack(a, offset + i) == Unpack(b, i) {
      assert a[offset / 2 + i / 2] == a[offset / 2..offset / 2 + (len + 1) / 2][i / 2] == b[i / 2];
    }
  }

  /** And conversely, when the length is even. */
  lemma NibblesDetermineBytes(a: seq<Byte>, b: seq<Byte>, n: nat)
    requires n <= |a| && n <= |b|
    ensures a[..n] == b[..n] <==> NibbleStr(a, 0, 2 * n) == NibbleStr(b, 0, 2 * n)
  {
    if a[..n] == b[..n] {
      BytesDetermineNibbles(a, b, 0, 2 * n);
    }
    if NibbleStr(a, 0, 2 * n) == NibbleStr(b, 0, 2 * n) {
      forall i | 0 <= i < n ensures a[i] == b[i] {
        assert NibbleStr(a, 0, 2 * n)[2 * i] == NibbleStr(b, 0, 2 * n)[2 * i];
        assert NibbleStr(a, 0, 2 * n)[2 * i + 1] == NibbleStr(b, 0, 2 * n)[2 * i + 1];
        assert a[i] == 16 * (a[i] / 16) + a[i] % 16;
      }
    }
  }

  /** Copy `length` nibbles from any offset, even or odd, to the start of `dest`. */
  method CopyKey(dest: array<Byte>, src: seq<Byte>, offset: nat, length: nat)
    requires offset + length <= 2 * |src| && length <= 2 * dest.Length
    modifies dest
    ensures NibbleStr(dest[..], 0, length) == NibbleStr(src, offset, length)
  {
    if offset % 2 == 0 {
      var n := (length + 1) / 2;
      forall i | 0 <= i < n {
        dest[i] := src[offset / 2 + i];
      }
      BytesDetermineNibbles(src, dest[..], offset, length);
      return;
    }
    for i := 0 to length
      invariant forall j :: 0 <= j < i ==> Unpack(dest[..], j) == Unpack(src, offset + j)
    {
      var value := Unpack(src, offset + i);
      ghost var before := dest[..];
      dest[i / 2] := PackByte(dest[i / 2], i, value);
      assert dest[..] == before[i / 2 := PackByte(before[i / 2], i, value)];
      forall j | 0 <= j <= i ensures Unpack(dest[..], j) == Unpack(src, offset + j) {
        PackThenUnpack(before, i, value, j);
      }
    }
  }

  /** Compare an edge's nibbles with the key from `keyIdx` on: the whole bytes of the realigned
      key at once, then the odd last nibble. */
  method EdgeMatches(edgeKey: seq<Byte>, length: nat, key: seq<Byte>, keyIdx: nat) returns (matches: bool)
    requires length <= 2 * |edgeKey| && keyIdx + length <= 2 * |key|
    ensures matches <==> NibbleStr(edgeKey, 0, length) == NibbleStr(key, keyIdx, length)
  {
    var oldIdx := length / 2 * 2;
    var at := keyIdx;
    if oldIdx > 0 {
      var byteLen := oldIdx / 2;
      var alignedKey := new Byte[byteLen](_ => 0);
      CopyKey(alignedKey, key, at, oldIdx);
      NibblesDetermineBytes(edgeKey, alignedKey[..], byteLen);
      if edgeKey[..byteLen] != alignedKey[..] {
        PrefixDiffers(edgeKey, key, keyIdx, oldIdx, length);
        return false;
      }
      at := at + oldIdx;
      forall j | 0 <= j < oldIdx ensures Unpack(edgeKey, j) == Unpack(key, keyIdx + j) {
        assert NibbleStr(edgeKey, 0, oldIdx)[j] == NibbleStr(key, keyIdx, oldIdx)[j];
      }
    }
    while oldIdx < length
      invariant length / 2 * 2 <= oldIdx <= length && at == keyIdx + oldIdx
      invariant forall j :: 0 <= j < oldIdx ==> Unpack(edgeKey, j) == Unpack(key, keyIdx + j)
    {
      if Unpack(edgeKey, oldIdx) != Unpack(key, at) {
        assert NibbleStr(edgeKey, 0, length)[oldIdx] != NibbleStr(key, keyIdx, length)[oldIdx];
        return false;
      }
      at := at + 1;
      oldIdx := oldIdx + 1;
    }
    matches := true;
  }

  lemma PrefixDiffers(a: seq<Byte>, b: seq<Byte>, offset: nat, m: nat, n: nat)
    requires m <= n <= 2 * |a| && offset + n <= 2 * |b|
    requires NibbleStr(a, 0, m) != NibbleStr(b, offset, m)
    ensures NibbleStr(a, 0, n) != NibbleStr(b, offset, n)
  {
    assert NibbleStr(a, 0, n)[..m] == NibbleStr(a, 0, m);
    assert NibbleStr(b, offset, n)[..m] == NibbleStr(b, offset, m);
  }
}
