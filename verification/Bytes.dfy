/** Numbers in bytes, and pages of memory as bytes or as 64-bit words. */
module Bytes {
  import opened Sv39

  type Byte = x: int | 0 <= x < 256
  type Page = p: seq<Byte> | |p| == 4096 witness seq(4096, _ => 0)

  /** Little-endian encoding in n bytes. */
  function ToBytes(v: nat, n: nat): (s: seq<Byte>)
    ensures |s| == n
  {
    if n == 0 then [] else [v % 256] + ToBytes(v / 256, n - 1)
  }

  function FromBytes(s: seq<Byte>): nat {
    if s == [] then 0 else s[0] + 256 * FromBytes(s[1..])
  }

  function Pow256(n: nat): nat {
    if n == 0 then 1 else 256 * Pow256(n - 1)
  }

  lemma Powers()
    ensures Pow256(4) == 0x1_0000_0000 && Pow256(8) == U64_LIMIT
  {
    assert Pow256(2) == 0x1_0000;
    assert Pow256(4) == 0x1_0000_0000;
    assert Pow256(6) == 0x1_0000_0000_0000;
    assert Pow256(8) == 0x1_0000_0000_0000_0000;
  }

  lemma {:induction false} BytesRoundTrip(v: nat, n: nat)
    requires v < Pow256(n)
    ensures FromBytes(ToBytes(v, n)) == v
  {
    if n > 0 {
      BytesRoundTrip(v / 256, n - 1);
      assert ToBytes(v, n)[1..] == ToBytes(v / 256, n - 1);
    }
  }

  lemma {:induction false} NumberRoundTrip(s: seq<Byte>)
    ensures FromBytes(s) < Pow256(|s|)
    ensures ToBytes(FromBytes(s), |s|) == s
  {
    if s != [] {
      NumberRoundTrip(s[1..]);
      assert FromBytes(s) % 256 == s[0] && FromBytes(s) / 256 == FromBytes(s[1..]);
      assert s == [s[0]] + s[1..];
    }
  }

  // -------------------------------------------------------------- signed integers

  const INT_LIMIT := 0x8000_0000

  /** A C int in four bytes, two's complement. */
  function IntBytes(v: int): (s: seq<Byte>)
    ensures |s| == 4
  {
    ToBytes(v % 0x1_0000_0000, 4)
  }

  function BytesInt(s: seq<Byte>): int {
    var n := FromBytes(s);
    if n < INT_LIMIT then n else n - 0x1_0000_0000
  }

  lemma IntRoundTrip(v: int)
    requires -INT_LIMIT <= v < INT_LIMIT
    ensures BytesInt(IntBytes(v)) == v
  {
    Powers();
    BytesRoundTrip(v % 0x1_0000_0000, 4);
  }

  // ------------------------------------------------------------------------ pages

  /** A page after bytes have been written at an offset. */
  function Splice(page: Page, at: nat, bytes: seq<Byte>): Page
    requires at + |bytes| <= 4096
  {
    page[..at] + bytes + page[at + |bytes|..]
  }

  lemma SpliceAt(page: Page, at: nat, bytes: seq<Byte>, lo: nat, hi: nat)
    requires at + |bytes| <= 4096 && lo <= hi <= 4096
    ensures lo == at && hi == at + |bytes| ==> Splice(page, at, bytes)[lo..hi] == bytes
    ensures hi <= at || at + |bytes| <= lo ==> Splice(page, at, bytes)[lo..hi] == page[lo..hi]
  {
  }

  /** A frame of 64-bit words seen as bytes, and back. */
  function PageOf(frame: Frame): Page {
    seq(4096, i requires 0 <= i < 4096 => ToBytes(frame[i / 8], 8)[i % 8])
  }

  function WordOf(page: Page, i: nat): U64
    requires i < 512
  {
    Powers();
    NumberRoundTrip(page[8 * i..8 * i + 8]);
    FromBytes(page[8 * i..8 * i + 8])
  }

  function FrameOf(page: Page): Frame {
    seq(512, i requires 0 <= i < 512 => WordOf(page, i))
  }

  lemma PageRoundTrip(page: Page)
    ensures PageOf(FrameOf(page)) == page
  {
    forall i | 0 <= i < 4096
      ensures PageOf(FrameOf(page))[i] == page[i]
    {
      var w, j := i / 8, i % 8;
      NumberRoundTrip(page[8 * w..8 * w + 8]);
      assert page[8 * w..8 * w + 8][j] == page[i];
    }
  }

  lemma FrameRoundTrips(frame: Frame)
    ensures FrameOf(PageOf(frame)) == frame
  {
    forall i | 0 <= i < 512
      ensures FrameOf(PageOf(frame))[i] == frame[i]
    {
      Powers();
      BytesRoundTrip(frame[i], 8);
      assert PageOf(frame)[8 * i..8 * i + 8] == ToBytes(frame[i], 8);
    }
  }
}
