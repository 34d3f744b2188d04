/** Machine integers, byte strings and the big-endian layout the wire format uses. */
module Bytes {
  type u8 = x: int | 0 <= x < 0x100
  type u16 = x: int | 0 <= x < 0x1_0000
  type u32 = x: int | 0 <= x < 0x1_0000_0000
  type u64 = x: int | 0 <= x < 0x1_0000_0000_0000_0000
  type bytes = seq<u8>

  const MAX_U32: u32 := 0xFFFF_FFFF

  datatype Option<+T> = None | Some(value: T)

  datatype Result<+T, +E> = Ok(value: T) | Err(error: E)

  /** `x + 1` on a 32-bit unsigned integer. */
  function Inc32(x: u32): u32 {
    if x == MAX_U32 then 0 else x + 1
  }

  /** `a - b` on 32-bit unsigned integers. */
  function Sub32(a: u32, b: u32): u32 {
    (a - b) % 0x1_0000_0000
  }

  lemma ConcatIsAssociative<T>(a: seq<T>, b: seq<T>, c: seq<T>)
    ensures (a + b) + c == a + (b + c)
  {
  }

  lemma UpdateTwice<K, V>(m: map<K, V>, k: K, v: V, w: V)
    ensures m[k := v][k := w] == m[k := w]
  {
  }

  /** What comes before the nil value or the cancellation that stops a loop. */
  ghost function UpToNone<T>(ch: seq<Option<T>>): seq<T> {
    if ch == [] || ch[0].None? then [] else [ch[0].value] + UpToNone(ch[1..])
  }

  /** It is all there is before the first nil value, or everything if there is none. */
  lemma {:induction false} UpToNoneIs<T>(ch: seq<Option<T>>, n: nat)
    requires n <= |ch| && (forall i :: 0 <= i < n ==> ch[i].Some?) && (n < |ch| ==> ch[n].None?)
    ensures |UpToNone(ch)| == n && forall i :: 0 <= i < n ==> UpToNone(ch)[i] == ch[i].value
  {
    if n > 0 { UpToNoneIs(ch[1..], n - 1); }
  }

  lemma TakeNext<T>(done: seq<T>, ch: seq<Option<T>>, i: nat)
    requires i < |ch| && ch[i].Some?
    ensures done + UpToNone(ch[i..]) == (done + [ch[i].value]) + UpToNone(ch[i + 1..])
  {
    assert ch[i..][1..] == ch[i + 1..];
  }

  function Be16(x: u16): (b: bytes)
    ensures |b| == 2
  {
    [x / 0x100, x % 0x100]
  }

  function FromBe16(b: bytes): u16
    requires |b| == 2
  {
    var high: int := b[0];
    high * 0x100 + b[1]
  }

  function Be32(x: u32): (b: bytes)
    ensures |b| == 4
  {
    Be16(x / 0x1_0000) + Be16(x % 0x1_0000)
  }

  function FromBe32(b: bytes): u32
    requires |b| == 4
  {
    var high: int := FromBe16(b[..2]);
    high * 0x1_0000 + FromBe16(b[2..])
  }

  function Be64(x: u64): (b: bytes)
    ensures |b| == 8
  {
    Be32(x / 0x1_0000_0000) + Be32(x % 0x1_0000_0000)
  }

  function FromBe64(b: bytes): u64
    requires |b| == 8
  {
    var high: int := FromBe32(b[..4]);
    high * 0x1_0000_0000 + FromBe32(b[4..])
  }

  lemma Be16RoundTrip(x: u16)
    ensures FromBe16(Be16(x)) == x
  {
  }

  lemma Be32RoundTrip(x: u32)
    ensures FromBe32(Be32(x)) == x
  {
    var b := Be32(x);
    assert b[..2] == Be16(x / 0x1_0000);
    assert b[2..] == Be16(x % 0x1_0000);
  }

  lemma Be64RoundTrip(x: u64)
    ensures FromBe64(Be64(x)) == x
  {
    var b := Be64(x);
    assert b[..4] == Be32(x / 0x1_0000_0000);
    assert b[4..] == Be32(x % 0x1_0000_0000);
    Be32RoundTrip(x / 0x1_0000_0000);
    Be32RoundTrip(x % 0x1_0000_0000);
  }

  /** The number that the bytes write, the most significant one first. */
  function Number(b: bytes): (n: nat) {
    if b == [] then 0
    else
      var last: int := b[|b| - 1];
      0x100 * Number(b[..|b| - 1]) + last
  }

  lemma NumberOfTwo(b: bytes)
    requires |b| == 2
    ensures FromBe16(b) == Number(b)
  {
    assert b[..1][..0] == [] && b[..1] == [b[0]];
    assert Number(b[..1]) == b[0];
  }

  lemma NumberOfFour(b: bytes)
    requires |b| == 4
    ensures FromBe32(b) == Number(b)
  {
    assert b[..3][..2] == b[..2];
    NumberOfTwo(b[..2]);
    NumberOfTwo(b[2..]);
    assert b[2..][..1] == [b[2]] && [b[2]][..0] == [];
  }

  lemma OneMoreByte(a: bytes, b: bytes, x: u8)
    ensures Number(b + [x]) == 0x100 * Number(b) + x as int
    ensures Number(a + (b + [x])) == 0x100 * Number(a + b) + x as int
  {
    assert (b + [x])[..|b|] == b && (a + (b + [x]))[..|a + b|] == a + b;
  }

  lemma FourMoreBytes(a: bytes, b: bytes)
    requires |b| == 4
    ensures Number(a + b) == 0x1_0000_0000 * Number(a) + Number(b)
  {
    OneMoreByte(a, [], b[0]);
    OneMoreByte(a, b[..1], b[1]);
    OneMoreByte(a, b[..2], b[2]);
    OneMoreByte(a, b[..3], b[3]);
    assert a + [] == a && b[..0] == [] && b[..4] == b;
    assert b[..1] == [] + [b[0]] && b[..2] == b[..1] + [b[1]] && b[..3] == b[..2] + [b[2]] && b == b[..3] + [b[3]];
    hide Number;
  }

  lemma NumberOfEight(b: bytes)
    requires |b| == 8
    ensures FromBe64(b) == Number(b)
  {
    NumberOfFour(b[..4]);
    NumberOfFour(b[4..]);
    hide FromBe32;
    FourMoreBytes(b[..4], b[4..]);
    assert b[..4] + b[4..] == b;
  }

  /** Numbers are written and read with the most significant byte first. */
  lemma NumbersAreBigEndian(x: u16, y: u32, z: u64)
    ensures Number(Be16(x)) == x && Number(Be32(y)) == y && Number(Be64(z)) == z
  {
    Be16RoundTrip(x);
    Be32RoundTrip(y);
    Be64RoundTrip(z);
    hide *;
    NumberOfTwo(Be16(x));
    NumberOfFour(Be32(y));
    NumberOfEight(Be64(z));
  }
}
