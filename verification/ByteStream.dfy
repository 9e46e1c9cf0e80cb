/** The binary stream: little-endian integers, length-prefixed strings, and the sign-magnitude varint. */
module ByteStream {
  import opened Common
  import opened Words

  type Byte = x: int | 0 <= x < 256

  const SIZE_MAX := 0xFFFF_FFFF_FFFF_FFFF
  const UINT64 := 0x1_0000_0000_0000_0000 // 2^64
  const UINT32 := 0x1_0000_0000 // 2^32
  const INT64_MAX := 0x7FFF_FFFF_FFFF_FFFF

  lemma WordSizes()
    ensures Pow2(63) == INT64_MAX + 1 && Pow2(64) == UINT64 == SIZE_MAX + 1 && Pow2(32) == UINT32 && Pow2(6) == 64
    ensures Pow2(64) == 4 * Pow2(62)
  {
    assert Pow2(15) == 32768;
    Pow2Add(15, 16);
    Pow2Add(31, 16);
    Pow2Add(47, 16);
  }

  // Little-endian numbers.

  function Le(u: nat, size: nat): (bytes: seq<Byte>)
    ensures |bytes| == size
  {
    if size == 0 then [] else [u % 256] + Le(u / 256, size - 1)
  }

  function FromLe(bytes: seq<Byte>): nat {
    if bytes == [] then 0 else bytes[0] + 256 * FromLe(bytes[1..])
  }

  lemma Pow2OfByte(n: nat)
    ensures Pow2(8 * (n + 1)) == 256 * Pow2(8 * n)
  {
    var k := 8 * n;
    assert Pow2(k + 2) == 4 * Pow2(k);
    assert Pow2(k + 4) == 4 * Pow2(k + 2);
    assert Pow2(k + 6) == 4 * Pow2(k + 4);
    assert Pow2(k + 8) == 4 * Pow2(k + 6);
  }

  /** Encoding and decoding are inverse on numbers that fit. */
  lemma {:induction false} LeRoundTrip(u: nat, size: nat)
    requires u < Pow2(8 * size)
    ensures FromLe(Le(u, size)) == u
  {
    if size > 0 {
      Pow2OfByte(size - 1);
      LeRoundTrip(u / 256, size - 1);
    }
  }

  lemma {:induction false} FromLeBound(bytes: seq<Byte>)
    ensures FromLe(bytes) < Pow2(8 * |bytes|)
  {
    if bytes != [] {
      Pow2OfByte(|bytes| - 1);
      FromLeBound(bytes[1..]);
    }
  }

  lemma {:induction false} FromLeAppend(bytes: seq<Byte>, b: Byte)
    ensures FromLe(bytes + [b]) == FromLe(bytes) + b * Pow2(8 * |bytes|)
  {
    if bytes == [] {
      assert ([] + [b])[1..] == [];
    } else {
      assert (bytes + [b])[1..] == bytes[1..] + [b];
      FromLeAppend(bytes[1..], b);
      Pow2OfByte(|bytes| - 1);
      assert b * Pow2(8 * |bytes|) == 256 * (b * Pow2(8 * (|bytes| - 1)));
    }
  }

  lemma {:induction false} ShrAdd(v: nat, a: nat, b: nat)
    ensures Shr(v, a + b) == Shr(Shr(v, a), b)
    decreases a
  {
    if a > 0 {
      ShrAdd(v / 2, a - 1, b);
    }
  }

  lemma ShrByte(v: nat)
    ensures Shr(v, 8) == v / 256
  {
    assert Shr(v, 2) == v / 2 / 2 == v / 4;
    ShrAdd(v, 2, 2);
    ShrAdd(v, 4, 4);
    assert Shr(v / 4, 2) == v / 4 / 2 / 2 == v / 16;
    ShrAdd(v / 16, 2, 2);
    assert Shr(v / 16, 2) == v / 16 / 2 / 2 == v / 64;
    assert Shr(v / 64, 2) == v / 64 / 2 / 2 == v / 256;
  }

  lemma ShrBytes(v: nat, i: nat)
    ensures Shr(v, 8 * (i + 1)) == Shr(v / 256, 8 * i)
  {
    hide Shr;
    ShrAdd(v, 8, 8 * i);
    ShrByte(v);
  }

  /** Byte i of the encoding is the number shifted right by 8 i bits. */
  lemma {:induction false} LeAt(u: nat, size: nat, i: nat)
    requires i < size
    ensures Le(u, size)[i] == Shr(u, 8 * i) % 256
  {
    if i > 0 {
      LeAt(u / 256, size - 1, i - 1);
      ShrBytes(u, i - 1);
    }
  }

  // Signed and unsigned views of a word of `size` bytes.

  function Unsigned(v: int, size: nat): int { if v < 0 then v + Pow2(8 * size) else v }

  function Signed(u: nat, size: nat): int
    requires size > 0
  {
    if u >= Pow2(8 * size - 1) then u - Pow2(8 * size) else u
  }

  predicate Fits(v: int, size: nat, signed: bool)
    requires size > 0
  {
    var half := if signed then Pow2(8 * size - 1) else 0;
    0 <= v + half < Pow2(8 * size)
  }

  lemma CastRoundTrip(v: int, size: nat, signed: bool)
    requires size > 0 && Fits(v, size, signed)
    ensures 0 <= Unsigned(v, size) < Pow2(8 * size)
    ensures (if signed then Signed(Unsigned(v, size), size) else Unsigned(v, size)) == v
  {
    assert Pow2(8 * size) == 2 * Pow2(8 * size - 1);
  }

  // The buffer as a value.

  function Zeros(n: nat): (z: seq<Byte>)
    ensures |z| == n
  {
    if n == 0 then [] else Zeros(n - 1) + [0]
  }

  /** resize: grow with zeros. */
  function Pad(buffer: seq<Byte>, length: nat): (p: seq<Byte>)
    ensures |p| >= length && buffer <= p
  {
    if length > |buffer| then buffer + Zeros(length - |buffer|) else buffer
  }

  /** The buffer after writing bytes at an offset. */
  function Write(buffer: seq<Byte>, offset: nat, bytes: seq<Byte>): (w: seq<Byte>)
    ensures |w| >= offset + |bytes|
  {
    var p := Pad(buffer, offset + |bytes|);
    p[..offset] + bytes + p[offset + |bytes|..]
  }

  /** The two-part test never computes offset + required, and means the same. */
  lemma AvailableMeans(length: nat, offset: nat, required: nat)
    ensures !(required > length || offset > length - required) <==> offset + required <= length
  {
  }

  /** The continuation loop of the varint, as a function. */
  function VarintTail(b: seq<Byte>, pos: nat, data: nat, shift: nat, more: bool): Option<(nat, nat)>
    requires pos <= |b|
    decreases |b| - pos
  {
    if !more then Some((data, pos))
    else if pos >= |b| then None
    else
      var next := Or(data, (b[pos] % 128) * Pow2(shift) % UINT64);
      if shift + 7 >= 64 then Some((next, pos + 1))
      else VarintTail(b, pos + 1, next, shift + 7, b[pos] >= 128)
  }

  function Clamp(data: nat): nat { if data > INT64_MAX then INT64_MAX else data }

  /** The value and the position after it, or None for a truncated input. */
  function Varint(b: seq<Byte>, offset: nat): Option<(int, nat)> {
    if offset >= |b| then None
    else
      match VarintTail(b, offset + 1, b[offset] % 64, 6, b[offset] >= 128)
      case None => None
      case Some((data, pos)) => Some((if b[offset] / 64 % 2 == 1 then -(Clamp(data) as int) else Clamp(data), pos))
  }

  /** The padded buffer with the first i bytes stored. */
  ghost function Stored(padded: seq<Byte>, offset: nat, bytes: seq<Byte>, i: nat): (s: seq<Byte>)
    requires i <= |bytes| && offset + |bytes| <= |padded|
    ensures |s| == |padded|
  {
    padded[..offset] + bytes[..i] + padded[offset + i..]
  }

  lemma EmptyLe()
    ensures FromLe([]) == 0
  {
  }

  /** Oring one more byte in above those read so far. */
  lemma OrByte(b: seq<Byte>, offset: nat, i: nat)
    requires offset + i < |b|
    ensures Or(FromLe(b[offset..offset + i]), b[offset + i] * Pow2(i * 8)) == FromLe(b[offset..offset + i + 1])
  {
    hide Or, Pow2, FromLe;
    var bytes := b[offset..offset + i];
    FromLeBound(bytes);
    FromLeAppend(bytes, b[offset + i]);
    assert b[offset..offset + i + 1] == bytes + [b[offset + i]];
    OrDisjoint(FromLe(bytes), b[offset + i], 8 * i);
  }

  lemma StoreByte(padded: seq<Byte>, offset: nat, bytes: seq<Byte>, i: nat)
    requires i < |bytes| && offset + |bytes| <= |padded|
    ensures Stored(padded, offset, bytes, i)[offset + i := bytes[i]] == Stored(padded, offset, bytes, i + 1)
  {
  }

  lemma StoredEnds(b: seq<Byte>, offset: nat, bytes: seq<Byte>)
    ensures var padded := Pad(b, offset + |bytes|);
            && Stored(padded, offset, bytes, 0) == padded
            && Stored(padded, offset, bytes, |bytes|) == Write(b, offset, bytes)
  {
    assert bytes[..|bytes|] == bytes;
  }

  class BinaryStream {
    var buffer: seq<Byte>
    var offset: nat

    constructor ()
      ensures buffer == [] && offset == 0
    {
      buffer, offset := [], 0;
    }

    /** False where the source throws overflow_error. */
    method PrepareWrite(size: nat) returns (ok: bool)
      requires size <= SIZE_MAX
      modifies this`buffer
      ensures ok <==> offset + size <= SIZE_MAX
      ensures buffer == if ok then Pad(old(buffer), offset + size) else old(buffer)
    {
      if offset > SIZE_MAX - size {
        return false;
      }
      var required := offset + size;
      if required > |buffer| {
        buffer := buffer + Zeros(required - |buffer|);
      }
      return true;
    }

    predicate CheckAvailable(required: nat)
      reads this
    {
      !(required > |buffer| || offset > |buffer| - required)
    }

    method PushLe(u: nat, size: nat) returns (ok: bool)
      requires size <= 8
      modifies this
      ensures ok <==> old(offset) + size <= SIZE_MAX
      ensures ok ==> buffer == Write(old(buffer), old(offset), Le(u, size)) && offset == old(offset) + size
      ensures !ok ==> buffer == old(buffer) && offset == old(offset)
    {
      hide Le, Shr, Pad, Write, Stored;
      ok := PrepareWrite(size);
      if !ok {
        return;
      }
      ghost var padded, bytes := buffer, Le(u, size);
      StoredEnds(old(buffer), offset, bytes);
      for i := 0 to size
        invariant offset == old(offset) && buffer == Stored(padded, offset, bytes, i)
      {
        LeAt(u, size, i);
        StoreByte(padded, offset, bytes, i);
        buffer := buffer[offset + i := Shr(u, i * 8) % 256];
      }
      offset := offset + size;
    }

    /** None where the source throws out_of_range. */
    method GetLe(size: nat) returns (r: Option<nat>)
      modifies this`offset
      ensures r.Some? <==> old(offset) + size <= |buffer|
      ensures r.Some? ==> r.value == FromLe(buffer[old(offset)..old(offset) + size]) && offset == old(offset) + size
      ensures r.None? ==> offset == old(offset)
    {
      hide Or, Pow2, FromLe;
      AvailableMeans(|buffer|, offset, size);
      if !CheckAvailable(size) {
        return None;
      }
      var u := 0;
      assert buffer[offset..offset] == [];
      EmptyLe();
      for i := 0 to size
        invariant offset == old(offset) && offset + size <= |buffer|
        invariant u == FromLe(buffer[offset..offset + i])
      {
        OrByte(buffer, offset, i);
        u := Or(u, buffer[offset + i] * Pow2(i * 8));
      }
      offset := offset + size;
      return Some(u);
    }

    method PushBytes(bytes: seq<Byte>) returns (ok: bool)
      requires |bytes| <= SIZE_MAX
      modifies this
      ensures ok <==> old(offset) + |bytes| <= SIZE_MAX
      ensures ok ==> buffer == Write(old(buffer), old(offset), bytes) && offset == old(offset) + |bytes|
      ensures !ok ==> buffer == old(buffer) && offset == old(offset)
    {
      ok := PrepareWrite(|bytes|);
      if ok {
        buffer := buffer[..offset] + bytes + buffer[offset + |bytes|..];
        offset := offset + |bytes|;
      }
    }

    /** The length is cast to 32 bits. */
    method PushText(text: seq<Byte>) returns (ok: bool)
      requires |text| <= SIZE_MAX
      modifies this
      ensures ok <==> old(offset) + 4 + |text| <= SIZE_MAX
      ensures ok ==> buffer == Write(Write(old(buffer), old(offset), Le(|text| % UINT32, 4)), old(offset) + 4, text)
                     && offset == old(offset) + 4 + |text|
      ensures !ok && old(offset) + 4 > SIZE_MAX ==> buffer == old(buffer) && offset == old(offset)
      ensures !ok && old(offset) + 4 <= SIZE_MAX ==>
        buffer == Write(old(buffer), old(offset), Le(|text| % UINT32, 4)) && offset == old(offset) + 4
    {
      ok := PushLe(|text| % UINT32, 4);
      if ok {
        ok := PushBytes(text);
      }
    }

    /** A length that promises more than there is fails with the length already consumed. */
    method GetText() returns (r: Option<seq<Byte>>)
      modifies this`offset
      ensures match ReadText(buffer, old(offset))
              case None => r == None && offset == if old(offset) + 4 <= |buffer| then old(offset) + 4 else old(offset)
              case Some((text, pos)) => r == Some(text) && offset == pos
    {
      var length := GetLe(4);
      if length.None? {
        return None;
      }
      AvailableMeans(|buffer|, offset, length.value);
      if !CheckAvailable(length.value) {
        return None;
      }
      var text := buffer[offset..offset + length.value];
      offset := offset + length.value;
      return Some(text);
    }

    /** A truncated input leaves the offset where it was. */
    method VarintDecode() returns (r: Option<int>)
      modifies this`offset
      ensures match Varint(buffer, old(offset))
              case None => r == None && offset == old(offset)
              case Some((v, pos)) => r == Some(v) && offset == pos
    {
      var pos := offset;
      if pos >= |buffer| {
        return None;
      }
      var byte := buffer[pos];
      pos := pos + 1;
      var sign := byte / 64 % 2 == 1;
      var data: nat := byte % 64;
      var shift := 6;
      while byte >= 128
        invariant pos <= |buffer| && shift < 64
        invariant VarintTail(buffer, offset + 1, buffer[offset] % 64, 6, buffer[offset] >= 128)
               == VarintTail(buffer, pos, data, shift, byte >= 128)
        decreases |buffer| - pos
      {
        if pos >= |buffer| {
          return None;
        }
        byte := buffer[pos];
        pos := pos + 1;
        data := Or(data, (byte % 128) * Pow2(shift) % UINT64);
        shift := shift + 7;
        if shift >= 64 {
          break;
        }
      }
      offset := pos;
      var signedVal: int := Clamp(data);
      return Some(if sign then -signedVal else signedVal);
    }
  }

  // The varint format.

  /** 7-bit groups, least significant first, with a continuation bit on all but the last. */
  function Groups(m: nat): seq<Byte>
    requires m > 0
  {
    if m < 128 then [m] else [128 + m % 128] + Groups(m / 128)
  }

  /** One byte of continuation, sign and six payload bits, then the groups. */
  function EncodeVarint(v: int): seq<Byte> {
    var m: nat := if v < 0 then -v else v;
    var head := (if m >= 64 then 128 else 0) + (if v < 0 then 64 else 0) + m % 64;
    [head] + (if m >= 64 then Groups(m / 64) else [])
  }

  lemma Pow2Plus7(n: nat)
    ensures Pow2(n + 7) == 128 * Pow2(n)
  {
    Pow2Add(n, 7);
    assert Pow2(7) == 128;
  }

  lemma {:induction false} GroupsLength(m: nat, k: nat)
    requires 0 < m < Pow2(7 * k)
    ensures 1 <= |Groups(m)| <= k
  {
    if k == 0 {
      assert false;
    } else if m >= 128 {
      Pow2Plus7(7 * (k - 1));
      GroupsLength(m / 128, k - 1);
    }
  }

  /** Reading the groups of m at a shift adds m * 2^shift to what was read before. */
  lemma {:induction false} GroupsDecode(pre: seq<Byte>, m: nat, post: seq<Byte>, data: nat, shift: nat)
    requires m > 0 && data < Pow2(shift) && data + m * Pow2(shift) <= INT64_MAX && shift < 64
    ensures VarintTail(pre + Groups(m) + post, |pre|, data, shift, true)
         == Some((data + m * Pow2(shift), |pre| + |Groups(m)|))
    decreases m
  {
    hide Pow2, Or;
    var b := pre + Groups(m) + post;
    var byte := b[|pre|];
    var low := m % 128;
    var p := Pow2(shift);
    assert byte == Groups(m)[0] && byte % 128 == low;
    LowGroup(m, p, data, shift);
    OrDisjoint(data, low, shift);
    var next: nat := data + low * p;
    var after: nat := |pre| + 1;
    assert Or(data, (byte % 128) * p % UINT64) == next;
    if m < 128 {
      assert low == m;
      assert VarintTail(b, |pre| + 1, next, shift + 7, false) == Some((next, after));
    } else {
      Pow2Plus7(shift);
      ShiftFits(m, shift);
      assert m == low + 128 * (m / 128);
      assert m * p == low * p + (m / 128) * (128 * p);
      LowBound(low, p, data);
      assert b == (pre + [byte]) + Groups(m / 128) + post;
      GroupsDecode(pre + [byte], m / 128, post, next, shift + 7);
    }
  }

  lemma LowBound(low: nat, p: nat, data: nat)
    requires low < 128 && data < p
    ensures data + low * p < 128 * p
  {
    assert low * p <= 127 * p;
  }

  lemma MulMonotone(a: nat, b: nat, c: nat)
    requires a <= b
    ensures a * c <= b * c
  {
  }

  lemma LowGroup(m: nat, p: nat, data: nat, shift: nat)
    requires p == Pow2(shift) && data + m * p <= INT64_MAX
    ensures (m % 128) * p % UINT64 == (m % 128) * p
  {
    hide Pow2;
    var low := m % 128;
    assert low <= m;
    MulMonotone(low, m, p);
    SmallMod(low * p, UINT64);
  }

  /** With at least two more groups the shift stays below 57. */
  lemma ShiftFits(m: nat, shift: nat)
    requires m >= 128 && m * Pow2(shift) <= INT64_MAX
    ensures shift + 7 < 64
  {
    hide Pow2;
    assert 128 * Pow2(shift) <= m * Pow2(shift);
    Pow2Plus7(shift);
    WordSizes();
    if shift + 7 >= 63 {
      Pow2Monotone(63, shift + 7);
    }
  }

  /** Decoding an encoded value, anywhere in a buffer, gives it back and stops right behind it. */
  lemma VarintRoundTrip(pre: seq<Byte>, v: int, post: seq<Byte>)
    requires -INT64_MAX <= v <= INT64_MAX
    ensures Varint(pre + EncodeVarint(v) + post, |pre|) == Some((v, |pre| + |EncodeVarint(v)|))
    ensures 1 <= |EncodeVarint(v)| <= 10
  {
    hide Pow2, Or;
    var m: nat := if v < 0 then -v else v;
    var b := pre + EncodeVarint(v) + post;
    var head := b[|pre|];
    assert head == EncodeVarint(v)[0];
    assert head % 64 == m % 64 && (head / 64 % 2 == 1 <==> v < 0) && (head >= 128 <==> m >= 64);
    WordSizes();
    if m < 64 {
      var after: nat := |pre| + 1;
      assert VarintTail(b, after, m, 6, false) == Some((m, after));
    } else {
      assert m == m % 64 + m / 64 * 64;
      assert b == (pre + [head]) + Groups(m / 64) + post;
      GroupsDecode(pre + [head], m / 64, post, m % 64, 6);
      GroupsLength(m / 64, 9);
    }
  }

  /** Cutting an encoded value short anywhere makes decoding fail. */
  lemma VarintTruncated(pre: seq<Byte>, v: int, cut: nat)
    requires -INT64_MAX <= v <= INT64_MAX && cut < |EncodeVarint(v)|
    ensures Varint(pre + EncodeVarint(v)[..cut], |pre|) == None
  {
    hide Pow2, Or;
    var m: nat := if v < 0 then -v else v;
    var b := pre + EncodeVarint(v)[..cut];
    if cut > 0 {
      assert m >= 64;
      var head := b[|pre|];
      assert head == EncodeVarint(v)[0];
      assert EncodeVarint(v)[..cut] == [head] + Groups(m / 64)[..cut - 1];
      assert b == (pre + [head]) + Groups(m / 64)[..cut - 1];
      WordSizes();
      GroupsTruncated(pre + [head], m / 64, cut - 1, m % 64, 6);
    }
  }

  lemma {:induction false} GroupsTruncated(pre: seq<Byte>, m: nat, cut: nat, data: nat, shift: nat)
    requires m > 0 && m * Pow2(shift) <= INT64_MAX && shift < 64 && cut < |Groups(m)|
    ensures VarintTail(pre + Groups(m)[..cut], |pre|, data, shift, true) == None
    decreases m
  {
    hide Pow2, Or;
    var b := pre + Groups(m)[..cut];
    if cut > 0 {
      var byte := b[|pre|];
      assert byte == Groups(m)[0] && m >= 128;
      ShiftFits(m, shift);
      Pow2Plus7(shift);
      assert (m / 128) * 128 <= m;
      assert (m / 128) * Pow2(shift + 7) == (m / 128) * 128 * Pow2(shift);
      assert (m / 128) * 128 * Pow2(shift) <= m * Pow2(shift);
      assert b == (pre + [byte]) + Groups(m / 128)[..cut - 1];
      GroupsTruncated(pre + [byte], m / 128, cut - 1,
                      Or(data, (byte % 128) * Pow2(shift) % UINT64), shift + 7);
    }
  }

  // Any other bytes.

  /** The value of 7-bit groups, least significant first. */
  ghost function Base128(bytes: seq<Byte>): nat {
    if bytes == [] then 0 else bytes[0] % 128 + 128 * Base128(bytes[1..])
  }

  ghost predicate Unfinished(b: seq<Byte>, from: nat, to: int) {
    forall i :: from <= i < to && i < |b| ==> b[i] >= 128
  }

  /** A group that fits into 64 bits. */
  lemma GroupFits(g: nat, data: nat, shift: nat)
    requires g < 128 && shift < 57 && data < Pow2(shift)
    ensures Or(data, g * Pow2(shift) % UINT64) == data + g * Pow2(shift) == (data + g * Pow2(shift)) % UINT64
    ensures data + g * Pow2(shift) < Pow2(shift + 7)
  {
    hide Pow2, Or;
    WordSizes();
    LowBound(g, Pow2(shift), data);
    Pow2Plus7(shift);
    Pow2Monotone(shift + 7, 64);
    SmallMod(g * Pow2(shift), UINT64);
    SmallMod(data + g * Pow2(shift), UINT64);
    OrDisjoint(data, g, shift);
  }

  /** Of the last group only two bits are left. */
  lemma LastGroup(g: nat, data: nat)
    requires data < Pow2(62)
    ensures Or(data, g * Pow2(62) % UINT64) == (data + g * Pow2(62)) % UINT64
  {
    hide Pow2, Or;
    WordSizes();
    var p, high, low := Pow2(62), g / 4, g % 4;
    Spread(high, low, p);
    assert low * p <= 3 * p;
    ModUnique(g * p, high, UINT64, low * p);
    ModUnique(data + g * p, high, UINT64, data + low * p);
    OrDisjoint(data, low, 62);
  }

  lemma Spread(high: nat, low: nat, p: nat)
    ensures (4 * high + low) * p == high * (4 * p) + low * p
  {
  }

  /** What is left of a number in a 64-bit word. */
  function Low64(x: nat): nat { x % 0x1_0000_0000_0000_0000 }

  /** The next byte either ends the value or hands on to the one behind it. */
  lemma NextByte(b: seq<Byte>, pos: nat, data: nat, shift: nat, left: nat) returns (next: nat)
    requires pos < |b| && 1 <= left <= 9 && shift == 69 - 7 * left && data < Pow2(shift)
    ensures left == 1 || b[pos] < 128 ==>
              && VarintTail(b, pos, data, shift, true) == Some((next, pos + 1))
              && next == Low64(data + Pow2(shift) * Base128(b[pos..pos + 1]))
    ensures !(left == 1 || b[pos] < 128) ==>
              && VarintTail(b, pos, data, shift, true) == VarintTail(b, pos + 1, next, shift + 7, true)
              && next < Pow2(shift + 7)
              && forall end :: pos < end <= |b| ==>
                   data + Pow2(shift) * Base128(b[pos..end]) == next + Pow2(shift + 7) * Base128(b[pos + 1..end])
  {
    hide Pow2, Or, Base128;
    var g := b[pos] % 128;
    next := Or(data, g * Pow2(shift) % UINT64);
    if left > 1 { GroupFits(g, data, shift); } else { LastGroup(g, data); }
    if left == 1 || b[pos] < 128 {
      assert b[pos..pos + 1] == [b[pos]];
      OneGroup(b[pos]);
      LastByte(b, pos, data, shift);
    } else {
      MoreGroups(b, pos, data, shift);
    }
  }

  /** Reading on at a shift behind which `left` more groups fit. */
  lemma {:induction false} TailMeans(b: seq<Byte>, pos: nat, data: nat, shift: nat, left: nat)
    requires pos <= |b| && 1 <= left <= 9 && shift == 69 - 7 * left && data < Pow2(shift)
    ensures match VarintTail(b, pos, data, shift, true)
            case None => |b| - pos < left && Unfinished(b, pos, |b|)
            case Some((d, end)) =>
              && pos < end <= |b| && end - pos <= left
              && Unfinished(b, pos, end - 1) && (b[end - 1] < 128 || end - pos == left)
              && d == Low64(data + Pow2(shift) * Base128(b[pos..end]))
    decreases left
  {
    hide Pow2, Or, Base128, Low64;
    if pos < |b| {
      var next := NextByte(b, pos, data, shift, left);
      if left > 1 && b[pos] >= 128 {
        TailMeans(b, pos + 1, next, shift + 7, left - 1);
      }
      hide VarintTail;
    }
  }

  lemma OneGroup(byte: Byte)
    ensures Base128([byte]) == byte % 128
  {
    assert [byte][1..] == [];
  }

  lemma LastByte(b: seq<Byte>, pos: nat, data: nat, shift: nat)
    requires pos < |b| && (shift >= 57 || b[pos] < 128)
    ensures VarintTail(b, pos, data, shift, true) == Some((Or(data, (b[pos] % 128) * Pow2(shift) % UINT64), pos + 1))
  {
    hide Pow2, Or;
  }

  lemma MoreGroups(b: seq<Byte>, pos: nat, data: nat, shift: nat)
    requires pos < |b| && shift < 57 && b[pos] >= 128
    ensures var next := Or(data, (b[pos] % 128) * Pow2(shift) % UINT64);
            VarintTail(b, pos, data, shift, true) == VarintTail(b, pos + 1, next, shift + 7, true)
    ensures forall end :: pos < end <= |b| ==>
              Pow2(shift) * Base128(b[pos..end]) == (b[pos] % 128) * Pow2(shift) + Pow2(shift + 7) * Base128(b[pos + 1..end])
  {
    hide Pow2, Or;
    Pow2Plus7(shift);
    forall end | pos < end <= |b|
      ensures Pow2(shift) * Base128(b[pos..end]) == (b[pos] % 128) * Pow2(shift) + Pow2(shift + 7) * Base128(b[pos + 1..end])
    {
      assert b[pos..end][1..] == b[pos + 1..end];
      NextGroup(b[pos] % 128, Pow2(shift), Base128(b[pos + 1..end]));
    }
  }

  lemma NextGroup(g: nat, p: nat, rest: nat)
    ensures p * (g + 128 * rest) == g * p + 128 * p * rest
  {
  }

  /** Whatever the bytes are: the varint ends with the first byte without continuation bit, or with the tenth one;
      it fails exactly when the buffer ends before that; and its magnitude is what the groups stand for in 64 bits, but
      at most 2^63 - 1. */
  lemma VarintMeans(b: seq<Byte>, offset: nat)
    ensures match Varint(b, offset)
            case None => |b| - offset < 10 && Unfinished(b, offset, |b|)
            case Some((v, pos)) =>
              && offset < pos <= |b| && pos - offset <= 10
              && Unfinished(b, offset, pos - 1) && (b[pos - 1] < 128 || pos - offset == 10)
              && var data := Low64(b[offset] % 64 + 64 * Base128(b[offset + 1..pos]));
                 var m := if data > 0x7FFF_FFFF_FFFF_FFFF then 0x7FFF_FFFF_FFFF_FFFF else data as int;
                 v == if b[offset] / 64 % 2 == 1 then -m else m
  {
    if offset < |b| {
      HeadMeans(b, offset, b[offset] % 64);
      hide VarintTail, Base128, Low64;
    }
  }

  lemma HeadMeans(b: seq<Byte>, offset: nat, head: nat)
    requires offset < |b| && head < 64
    ensures match VarintTail(b, offset + 1, head, 6, b[offset] >= 128)
            case None => |b| - offset < 10 && Unfinished(b, offset, |b|)
            case Some((data, pos)) =>
              && offset < pos <= |b| && pos - offset <= 10
              && Unfinished(b, offset, pos - 1) && (b[pos - 1] < 128 || pos - offset == 10)
              && data == Low64(head + 64 * Base128(b[offset + 1..pos]))
  {
    hide Pow2, Or, Base128, Low64;
    if b[offset] >= 128 {
      WordSizes();
      TailMeans(b, offset + 1, head, 6, 9);
      hide VarintTail;
    } else {
      assert b[offset + 1..offset + 1] == [];
      HeadAlone(head);
    }
  }

  lemma HeadAlone(head: nat)
    requires head < 64
    ensures Low64(head + 64 * Base128([])) == head
  {
  }

  // Typed round trips.

  datatype Item = Num(size: nat, signed: bool, value: int) | Text(bytes: seq<Byte>)

  predicate ValidItem(item: Item) {
    match item
    case Num(size, signed, value) => size in {1, 2, 4, 8} && Fits(value, size, signed)
    case Text(bytes) => |bytes| < UINT32
  }

  function Encode(item: Item): seq<Byte>
    requires ValidItem(item)
  {
    match item
    case Num(size, signed, value) => CastRoundTrip(value, size, signed); Le(Unsigned(value, size), size)
    case Text(bytes) => Le(|bytes|, 4) + bytes
  }

  /** What a reader of the item's type finds at an offset. */
  function ReadItem(b: seq<Byte>, offset: nat, like: Item): Option<(Item, nat)>
    requires ValidItem(like)
  {
    match like
    case Num(size, signed, _) =>
      if offset + size > |b| then None
      else
        var u := FromLe(b[offset..offset + size]);
        Some((Num(size, signed, if signed then Signed(u, size) else u), offset + size))
    case Text(_) =>
      match ReadText(b, offset)
      case None => None
      case Some((text, pos)) => Some((Text(text), pos))
  }

  function ReadText(b: seq<Byte>, offset: nat): Option<(seq<Byte>, nat)> {
    if offset + 4 > |b| then None
    else
      var length := FromLe(b[offset..offset + 4]);
      if offset + 4 + length > |b| then None
      else Some((b[offset + 4..offset + 4 + length], offset + 4 + length))
  }

  function WriteAll(b: seq<Byte>, offset: nat, items: seq<Item>): (seq<Byte>, nat)
    requires forall item <- items :: ValidItem(item)
    decreases |items|
  {
    if items == [] then (b, offset)
    else
      var bytes := Encode(items[0]);
      WriteAll(Write(b, offset, bytes), offset + |bytes|, items[1..])
  }

  function ReadAll(b: seq<Byte>, offset: nat, like: seq<Item>): Option<(seq<Item>, nat)>
    requires forall item <- like :: ValidItem(item)
    decreases |like|
  {
    if like == [] then Some(([], offset))
    else
      match ReadItem(b, offset, like[0])
      case None => None
      case Some((item, pos)) =>
        match ReadAll(b, pos, like[1..])
        case None => None
        case Some((rest, end)) => Some(([item] + rest, end))
  }

  lemma SameSlice(v: seq<Byte>, w: seq<Byte>, lo: nat, hi: nat)
    requires lo <= hi <= |v| && hi <= |w| && v[..hi] == w[..hi]
    ensures v[lo..hi] == w[lo..hi]
  {
    assert v[lo..hi] == v[..hi][lo..];
  }

  lemma WriteMiddle(b: seq<Byte>, offset: nat, bytes: seq<Byte>)
    ensures Write(b, offset, bytes)[offset..offset + |bytes|] == bytes
  {
  }

  lemma WriteKeeps(b: seq<Byte>, offset: nat, bytes: seq<Byte>, upto: nat)
    requires upto <= offset && upto <= |b|
    ensures |Write(b, offset, bytes)| >= |b| && Write(b, offset, bytes)[..upto] == b[..upto]
  {
    hide Write;
    WriteLength(b, offset, bytes);
    forall i: nat | i < upto ensures Write(b, offset, bytes)[i] == b[i] {
      WriteAt(b, offset, bytes, i);
    }
  }

  /** Two writes in a row: the second leaves the first alone. */
  lemma {:induction false} WriteAllKeeps(b: seq<Byte>, offset: nat, items: seq<Item>, upto: nat)
    requires (forall item <- items :: ValidItem(item)) && upto <= offset && upto <= |b|
    ensures var w := WriteAll(b, offset, items).0;
            |w| >= |b| && w[..upto] == b[..upto]
    decreases |items|
  {
    hide Pow2, Write, Encode, ValidItem;
    if items != [] {
      var bytes := Encode(items[0]);
      var w := Write(b, offset, bytes);
      WriteKeeps(b, offset, bytes, upto);
      WriteAllKeeps(w, offset + |bytes|, items[1..], upto);
    }
  }

  lemma ItemRoundTrip(b: seq<Byte>, offset: nat, item: Item)
    requires ValidItem(item)
    requires offset + |Encode(item)| <= |b| && b[offset..offset + |Encode(item)|] == Encode(item)
    ensures ReadItem(b, offset, item) == Some((item, offset + |Encode(item)|))
  {
    hide Pow2, Le, FromLe, Signed, Unsigned;
    match item
    case Num(size, signed, value) =>
      CastRoundTrip(value, size, signed);
      LeRoundTrip(Unsigned(value, size), size);
    case Text(bytes) =>
      WordSizes();
      LeRoundTrip(|bytes|, 4);
      var e := Encode(item);
      assert b[offset..offset + 4] == b[offset..offset + |e|][..4] == Le(|bytes|, 4);
      assert b[offset + 4..offset + 4 + |bytes|] == b[offset..offset + |e|][4..] == bytes;
  }

  /** The bytes of a number are the only ones that decode to it. */
  lemma {:induction false} LeOfFromLe(bytes: seq<Byte>)
    ensures Le(FromLe(bytes), |bytes|) == bytes
  {
    if bytes != [] {
      LeOfFromLe(bytes[1..]);
      LowByte(bytes[0], FromLe(bytes[1..]));
      assert [bytes[0]] + bytes[1..] == bytes;
    }
  }

  lemma LowByte(b: Byte, rest: nat)
    ensures (b + 256 * rest) % 256 == b && (b + 256 * rest) / 256 == rest
  {
  }

  /** Reading a text succeeds exactly where the encoding of a text stands in the buffer, and then gives that text
      and the position behind it. */
  lemma TextReadExactly(b: seq<Byte>, offset: nat, text: seq<Byte>, pos: nat)
    ensures ReadText(b, offset) == Some((text, pos)) <==>
              && |text| < 0x1_0000_0000 && pos == offset + 4 + |text| <= |b|
              && b[offset..pos] == Encode(Text(text))
  {
    hide Pow2, Le, FromLe;
    WordSizes();
    if ReadText(b, offset) == Some((text, pos)) {
      FromLeBound(b[offset..offset + 4]);
      LeOfFromLe(b[offset..offset + 4]);
      assert b[offset..pos] == b[offset..offset + 4] + b[offset + 4..pos];
    }
    if |text| < UINT32 && pos == offset + 4 + |text| <= |b| && b[offset..pos] == Encode(Text(text)) {
      ItemRoundTrip(b, offset, Text(text));
      assert ReadItem(b, offset, Text(text)) == Some((Text(text), pos));
    }
  }

  /** A text cut short anywhere, in its length or behind it, is rejected. */
  lemma TextTruncated(pre: seq<Byte>, text: seq<Byte>, cut: nat)
    requires |text| < UINT32 && cut < |Encode(Text(text))|
    ensures ReadText(pre + Encode(Text(text))[..cut], |pre|) == None
  {
    var e := Encode(Text(text));
    var b, offset := pre + e[..cut], |pre|;
    if ReadText(b, offset).Some? {
      var (t, pos) := ReadText(b, offset).value;
      TextReadExactly(b, offset, t, pos);
      hide Pow2, Le, FromLe, ReadText;
      assert b[offset..offset + 4] == e[..4] == Le(|text|, 4);
      assert b[offset..pos][..4] == Le(|t|, 4);
      WordSizes();
      LeRoundTrip(|text|, 4);
      LeRoundTrip(|t|, 4);
    }
  }

  /** Writing any list of integers and strings, going back, and reading the same types returns the same
      list and stops at the same place. */
  lemma {:induction false} StreamRoundTrip(b: seq<Byte>, offset: nat, items: seq<Item>)
    requires forall item <- items :: ValidItem(item)
    ensures var (w, end) := WriteAll(b, offset, items);
            ReadAll(w, offset, items) == Some((items, end))
    decreases |items|
  {
    hide Pow2, Write, Encode, Le, ReadItem, FromLe, ReadText, Fits, Unsigned, Signed, ValidItem;
    if items != [] {
      var item, rest := items[0], items[1..];
      var first, next := Write(b, offset, Encode(item)), offset + |Encode(item)|;
      var (w, end) := WriteAll(first, next, rest);
      FirstItem(b, offset, item, rest);
      StreamRoundTrip(first, next, rest);
      assert ReadItem(w, offset, items[0]) == Some((item, next));
      assert ReadAll(w, next, items[1..]) == Some((rest, end));
      assert [item] + rest == items;
    }
  }

  /** Whatever is written after an item, the item can be read back. */
  lemma FirstItem(b: seq<Byte>, offset: nat, item: Item, rest: seq<Item>)
    requires ValidItem(item) && forall r <- rest :: ValidItem(r)
    ensures var next: nat := offset + |Encode(item)|;
            ReadItem(WriteAll(Write(b, offset, Encode(item)), next, rest).0, offset, item) == Some((item, next))
  {
    hide Pow2, Write, Encode, Le, ReadItem, FromLe, ReadText, Fits, Unsigned, Signed, ValidItem, WriteAll;
    var bytes := Encode(item);
    var first, next := Write(b, offset, bytes), offset + |bytes|;
    var w := WriteAll(first, next, rest).0;
    WriteAllKeeps(first, next, rest, next);
    WriteMiddle(b, offset, bytes);
    SameSlice(w, first, offset, next);
    ItemRoundTrip(w, offset, item);
  }

  /** A text push is one write of its encoding. */
  lemma TextIsOneWrite(b: seq<Byte>, offset: nat, text: seq<Byte>)
    requires |text| < UINT32
    ensures Write(Write(b, offset, Le(|text| % UINT32, 4)), offset + 4, text) == Write(b, offset, Encode(Text(text)))
  {
    hide Pow2, Le, Write;
    SmallMod(|text|, UINT32);
    WriteTwice(b, offset, Le(|text|, 4), text);
  }

  lemma WriteTwice(b: seq<Byte>, offset: nat, x: seq<Byte>, y: seq<Byte>)
    ensures Write(Write(b, offset, x), offset + |x|, y) == Write(b, offset, x + y)
  {
    hide Write;
    var two, one := Write(Write(b, offset, x), offset + |x|, y), Write(b, offset, x + y);
    WriteLength(b, offset, x);
    WriteLength(Write(b, offset, x), offset + |x|, y);
    WriteLength(b, offset, x + y);
    forall i: nat | i < |one| ensures two[i] == one[i] {
      WriteTwiceAt(b, offset, x, y, i);
    }
  }

  lemma WriteTwiceAt(b: seq<Byte>, offset: nat, x: seq<Byte>, y: seq<Byte>, i: nat)
    requires i < |Write(b, offset, x + y)| && i < |Write(Write(b, offset, x), offset + |x|, y)|
    ensures Write(Write(b, offset, x), offset + |x|, y)[i] == Write(b, offset, x + y)[i]
  {
    hide Write;
    var first := Write(b, offset, x);
    WriteLength(b, offset, x);
    if i < |first| {
      WriteAt(b, offset, x, i);
    }
    WriteAt(first, offset + |x|, y, i);
    WriteAt(b, offset, x + y, i);
  }

  lemma SmallMod(a: nat, b: nat)
    requires a < b
    ensures a % b == a
  {
  }

  lemma WriteLength(b: seq<Byte>, offset: nat, bytes: seq<Byte>)
    ensures |Write(b, offset, bytes)| == if offset + |bytes| > |b| then offset + |bytes| else |b|
  {
    PadAt(b, offset + |bytes|, 0);
  }

  /** What a write leaves at each position: its bytes, the old ones around them, zeros in a gap. */
  lemma WriteAt(b: seq<Byte>, offset: nat, bytes: seq<Byte>, i: nat)
    requires i < |Write(b, offset, bytes)|
    ensures Write(b, offset, bytes)[i]
         == if offset <= i < offset + |bytes| then bytes[i - offset] else if i < |b| then b[i] else 0
  {
    PadAt(b, offset + |bytes|, i);
  }

  lemma {:induction false} ZerosAt(n: nat, i: nat)
    requires i < n
    ensures Zeros(n)[i] == 0
  {
    if i < n - 1 {
      ZerosAt(n - 1, i);
    }
  }

  lemma PadAt(b: seq<Byte>, length: nat, i: nat)
    ensures |Pad(b, length)| == if length > |b| then length else |b|
    ensures i < |Pad(b, length)| ==> Pad(b, length)[i] == if i < |b| then b[i] else 0
  {
    if |b| <= i < length {
      ZerosAt(length - |b|, i - |b|);
    }
  }
}
