/** Little-endian field access and bulk byte writes. Every write is specified by the splice
    it makes, so a sequence of writes can be read off as one sequence of bytes. */
module ByteIO {
  import opened Bits
  import opened Events

  function Le16(value: u16): (bytes: seq<u8>)
    ensures |bytes| == 2
  {
    [value % 0x100, value / 0x100 % 0x100]
  }

  function Le32(value: u32): (bytes: seq<u8>)
    ensures |bytes| == 4
  {
    Le16(value % 0x1_0000) + Le16(value / 0x1_0000 % 0x1_0000)
  }

  function Le64(value: u64): (bytes: seq<u8>)
    ensures |bytes| == 8
  {
    Le32(value % 0x1_0000_0000) + Le32(value / 0x1_0000_0000 % 0x1_0000_0000)
  }

  /** The range test written without adding offset and count. */
  predicate HasBytes(size: nat, offset: nat, count: nat)
    ensures HasBytes(size, offset, count) <==> offset + count <= size
  {
    offset <= size && count <= size - offset
  }

  function ReadU16(s: seq<u8>, at: nat): u16
    requires at + 2 <= |s|
  {
    s[at] as int + 0x100 * s[at + 1] as int
  }

  function ReadU32(s: seq<u8>, at: nat): u32
    requires at + 4 <= |s|
  {
    ReadU16(s, at) as int + 0x1_0000 * ReadU16(s, at + 2) as int
  }

  function ReadU64(s: seq<u8>, at: nat): u64
    requires at + 8 <= |s|
  {
    ReadU32(s, at) as int + 0x1_0000_0000 * ReadU32(s, at + 4) as int
  }

  /** The readers' shifts and ors compute these sums: shifting moves the high half past the low one. */
  lemma ReadsByShifts(s: seq<u8>, at: nat)
    ensures at + 2 <= |s| ==> ReadU16(s, at) == Or(s[at], ShiftLeft(s[at + 1], 8))
    ensures at + 4 <= |s| ==> ReadU32(s, at) == Or(ReadU16(s, at), ShiftLeft(ReadU16(s, at + 2), 16))
    ensures at + 8 <= |s| ==> ReadU64(s, at) == Or(ReadU32(s, at), ShiftLeft(ReadU32(s, at + 4), 32))
  {
    KnownPowers();
    if at + 2 <= |s| { OrDisjoint(s[at], s[at + 1], 8); }
    if at + 4 <= |s| { OrDisjoint(ReadU16(s, at), ReadU16(s, at + 2), 16); }
    if at + 8 <= |s| { OrDisjoint(ReadU32(s, at), ReadU32(s, at + 4), 32); }
  }

  /** Reading and writing a field are inverse to each other, in both directions. */
  lemma Field16(s: seq<u8>, at: nat, value: u16)
    requires at + 2 <= |s|
    ensures s[at..at + 2] == Le16(value) <==> ReadU16(s, at) == value
  {
    assert s[at..at + 2] == [s[at], s[at + 1]];
  }

  lemma Field32(s: seq<u8>, at: nat, value: u32)
    requires at + 4 <= |s|
    ensures s[at..at + 4] == Le32(value) <==> ReadU32(s, at) == value
  {
    var low, high := value % 0x1_0000, value / 0x1_0000 % 0x1_0000;
    Field16(s, at, low);
    Field16(s, at + 2, high);
    SplitHalves(s, at, 2, Le16(low), Le16(high));
    Halves(ReadU16(s, at), ReadU16(s, at + 2), 0x1_0000, value);
  }

  lemma Field64(s: seq<u8>, at: nat, value: u64)
    requires at + 8 <= |s|
    ensures s[at..at + 8] == Le64(value) <==> ReadU64(s, at) == value
  {
    var low, high := value % 0x1_0000_0000, value / 0x1_0000_0000 % 0x1_0000_0000;
    Field32(s, at, low);
    Field32(s, at + 4, high);
    SplitHalves(s, at, 4, Le32(low), Le32(high));
    Halves(ReadU32(s, at), ReadU32(s, at + 4), 0x1_0000_0000, value);
  }

  lemma SplitHalves(s: seq<u8>, at: nat, half: nat, left: seq<u8>, right: seq<u8>)
    requires at + 2 * half <= |s| && |left| == |right| == half
    ensures s[at..at + 2 * half] == left + right <==> s[at..at + half] == left && s[at + half..at + 2 * half] == right
  {
    var whole := s[at..at + 2 * half];
    assert whole[..half] == s[at..at + half] && whole[half..] == s[at + half..at + 2 * half];
    assert (left + right)[..half] == left && (left + right)[half..] == right;
    assert whole == whole[..half] + whole[half..];
  }

  lemma Halves(low: nat, high: nat, m: nat, value: nat)
    requires low < m && high < m && m > 0 && value < m * m
    ensures low == value % m && high == value / m % m <==> low + m * high == value
  {
    var q, r := value / m, value % m;
    assert value == q * m + r;
    if q >= m { MulStep(m - 1, q, m); }
    ModUnique(q, m, 0, q);
    if low + m * high == value { ModUnique(value, m, high, low); }
  }

  /** A slice of a slice is a slice. */
  lemma SubSlice(s: seq<u8>, offset: nat, size: nat, at: nat, count: nat)
    requires offset + size <= |s| && at + count <= size
    ensures s[offset..offset + size][at..at + count] == s[offset + at..offset + at + count]
  {
    var left, right := s[offset..offset + size][at..at + count], s[offset + at..offset + at + count];
    assert |left| == |right| && forall i :: 0 <= i < count ==> left[i] == right[i];
  }

  /** `s` with `bytes` written over it from index `at`. */
  function Splice(s: seq<u8>, at: nat, bytes: seq<u8>): (r: seq<u8>)
    requires at + |bytes| <= |s|
    ensures |r| == |s|
    ensures r[at..at + |bytes|] == bytes
    ensures forall i :: 0 <= i < at || at + |bytes| <= i < |s| ==> r[i] == s[i]
  {
    s[..at] + bytes + s[at + |bytes|..]
  }

  lemma SpliceAdjacent(s: seq<u8>, at: nat, left: seq<u8>, right: seq<u8>)
    requires at + |left| + |right| <= |s|
    ensures Splice(Splice(s, at, left), at + |left|, right) == Splice(s, at, left + right)
  {
  }

  method WriteU16(dst: array<u8>, at: nat, value: u16)
    requires at + 2 <= dst.Length
    modifies dst
    ensures dst[..] == Splice(old(dst[..]), at, Le16(value))
  {
    dst[at] := value % 0x100;
    dst[at + 1] := value / 0x100 % 0x100;
  }

  method WriteU32(dst: array<u8>, at: nat, value: u32)
    requires at + 4 <= dst.Length
    modifies dst
    ensures dst[..] == Splice(old(dst[..]), at, Le32(value))
  {
    WriteU16(dst, at, value % 0x1_0000);
    WriteU16(dst, at + 2, value / 0x1_0000 % 0x1_0000);
    SpliceAdjacent(old(dst[..]), at, Le16(value % 0x1_0000), Le16(value / 0x1_0000 % 0x1_0000));
  }

  method WriteU64(dst: array<u8>, at: nat, value: u64)
    requires at + 8 <= dst.Length
    modifies dst
    ensures dst[..] == Splice(old(dst[..]), at, Le64(value))
  {
    WriteU32(dst, at, value % 0x1_0000_0000);
    WriteU32(dst, at + 4, value / 0x1_0000_0000 % 0x1_0000_0000);
    SpliceAdjacent(old(dst[..]), at, Le32(value % 0x1_0000_0000), Le32(value / 0x1_0000_0000 % 0x1_0000_0000));
  }

  function Zeros(n: nat): (bytes: seq<u8>)
    ensures |bytes| == n
    ensures forall i :: 0 <= i < n ==> bytes[i] == 0
  {
    seq(n, _ => 0)
  }

  /** A forward copy; source and target may lie in the same array. */
  method CopyBytes(src: Span, dst: array<u8>, at: nat)
    requires src.InBounds() && src.CopiesTo(dst, at)
    requires at + src.size <= dst.Length
    modifies dst
    ensures dst[..] == Splice(old(dst[..]), at, old(src.Bytes()))
  {
    ghost var bytes, before := src.Bytes(), dst[..];
    for i := 0 to src.size
      invariant forall k :: 0 <= k < at || at + i <= k < dst.Length ==> dst[k] == before[k]
      invariant forall k :: 0 <= k < i ==> dst[at + k] == bytes[k]
    {
      assert src.data[src.offset + i] == bytes[i];
      dst[at + i] := src.data[src.offset + i];
    }
    assert dst[..] == Splice(before, at, bytes);
  }

  method FillZero(dst: array<u8>, from: nat, to: nat)
    requires from <= to <= dst.Length
    modifies dst
    ensures dst[..] == Splice(old(dst[..]), from, Zeros(to - from))
  {
    for i := from to to
      invariant dst[..from] == old(dst[..from])
      invariant forall k :: from <= k < i ==> dst[k] == 0
      invariant dst[i..] == old(dst[i..])
    {
      dst[i] := 0;
    }
    assert dst[..] == dst[..from] + dst[from..to] + dst[to..];
  }
}
