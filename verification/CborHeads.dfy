/** CBOR heads (RFC 8949, section 3) as the raw plugins write and read them. Shifts and
    masks on bytes are written with quotients and remainders. */
module CborHeads {
  import opened Sequences
  import opened Integers

  type Major = x: int | 0 <= x < 8

  /** The two helper pairs of the plugins: arguments of up to two bytes (storage, kv and
      life) or four (calc). */
  datatype Width = Narrow | Wide

  datatype Head = Head(size: nat, major: Major, value: u64)

  /** The shifts and masks of the helpers, on 8-bit vectors. */
  lemma BitFormsAreArithmetic(b: bv8, major: bv8, v: bv8)
    requires major < 8 && v < 32
    ensures b >> 5 == b / 32 && b & 31 == b % 32
    ensures (major << 5) | v == major * 32 + v
  {
  }

  function Limit(w: Width): int {
    if w == Narrow then 0x1_0000 else 0x1_0000_0000
  }

  /** Big-endian integers of two and four bytes. */
  function Pair(a: byte, b: byte): (v: u64)
    ensures v < 0x1_0000
  {
    256 * a as int + b
  }

  function Quad(a: byte, b: byte, c: byte, d: byte): (v: u64)
    ensures v < 0x1_0000_0000
  {
    256 * (256 * Pair(a, b) as int + c) + d
  }

  function EncHead(w: Width, major: Major, v: u64): (s: seq<byte>)
    ensures 1 <= |s| <= if w == Narrow then 3 else 5
  {
    if v < 24 then [major * 32 + v]
    else if v < 256 then [major * 32 + 24, v]
    else if w == Narrow || v < 65536 then [major * 32 + 25, v / 256 % 256, v % 256]
    else [major * 32 + 26, v / 256 / 256 / 256 % 256, v / 256 / 256 % 256, v / 256 % 256, v % 256]
  }

  function DecHead(w: Width, b: seq<byte>): (h: Option<Head>) {
    if |b| < 1 then None
    else
      var major, ai := b[0] / 32, b[0] % 32;
      if ai < 24 then Some(Head(1, major, ai))
      else if ai == 24 && |b| >= 2 then Some(Head(2, major, b[1]))
      else if ai == 25 && |b| >= 3 then Some(Head(3, major, Pair(b[1], b[2])))
      else if w == Wide && ai == 26 && |b| >= 5 then Some(Head(5, major, Quad(b[1], b[2], b[3], b[4])))
      else None
  }

  lemma TwoBytes(v: u64)
    ensures Pair(v / 256 % 256, v % 256) == v % 0x1_0000
  {
    var a := v / 256;
    assert v == a / 256 * 0x1_0000 + 256 * (a % 256) + v % 256;
  }

  lemma WordRemainder(v: int, t: int, r: int)
    requires v == 0x1_0000_0000 * t + r && 0 <= r < 0x1_0000_0000
    ensures v % 0x1_0000_0000 == r
  {
  }

  /** The digits of `v` in base 256, as the quotients and remainders chain up. */
  lemma Digits(v: int, a: int, b: int, c: int, t: int, d0: byte, d1: byte, d2: byte, d3: byte)
    requires v == 256 * a + d0 && a == 256 * b + d1 && b == 256 * c + d2 && c == 256 * t + d3
    ensures v == 0x1_0000_0000 * t + Quad(d3, d2, d1, d0)
  {
  }

  lemma FourBytes(v: u64)
    ensures Quad(v / 256 / 256 / 256 % 256, v / 256 / 256 % 256, v / 256 % 256, v % 256) == v % 0x1_0000_0000
  {
    var a := v / 256;
    var b := a / 256;
    var c := b / 256;
    Digits(v, a, b, c, c / 256, v % 256, a % 256, b % 256, c % 256);
    WordRemainder(v, c / 256, Quad(c % 256, b % 256, a % 256, v % 256));
  }

  /** For every 64-bit value and whatever follows: the decoder takes exactly the bytes
      the encoder wrote and returns the value modulo what the pair can carry. */
  lemma HeadRoundTrip(w: Width, major: Major, v: u64, rest: seq<byte>)
    ensures DecHead(w, EncHead(w, major, v) + rest)
            == Some(Head(|EncHead(w, major, v)|, major, v % Limit(w)))
  {
    hide Pair, Quad;
    TwoBytes(v);
    FourBytes(v);
  }

  /** Examples of RFC 8949, appendix A: integers up to 1000000, a one-byte string of each
      kind and the map with two entries. */
  lemma ExamplesOfTheStandard(w: Width)
    ensures EncHead(w, 0, 0) == [0x00] && EncHead(w, 0, 23) == [0x17]
    ensures EncHead(w, 0, 24) == [0x18, 0x18] && EncHead(w, 0, 100) == [0x18, 0x64]
    ensures EncHead(w, 0, 1000) == [0x19, 0x03, 0xe8]
    ensures EncHead(Wide, 0, 1000000) == [0x1a, 0x00, 0x0f, 0x42, 0x40]
    ensures EncHead(w, 2, 4) == [0x44] && EncHead(w, 3, 1) == [0x61] && EncHead(w, 5, 2) == [0xa2]
  {
  }

  /** No head is the beginning of another one. */
  lemma HeadsArePrefixFree(w: Width, m1: Major, v1: u64, m2: Major, v2: u64)
    requires EncHead(w, m1, v1) <= EncHead(w, m2, v2)
    ensures EncHead(w, m1, v1) == EncHead(w, m2, v2) && m1 == m2 && v1 % Limit(w) == v2 % Limit(w)
  {
    hide EncHead, DecHead;
    var a, b := EncHead(w, m1, v1), EncHead(w, m2, v2);
    HeadRoundTrip(w, m1, v1, b[|a|..]);
    HeadRoundTrip(w, m2, v2, []);
    assert a + b[|a|..] == b && b + [] == b;
  }

  /** Preferred serialization (RFC 8949, section 4.1): among everything the decoder
      reads as this head the encoder writes the only shortest form. */
  lemma HeadsAreShortest(w: Width, s: seq<byte>)
    requires DecHead(w, s).Some?
    ensures var h := DecHead(w, s).value;
            && h.value < Limit(w) && h.size <= |s|
            && |EncHead(w, h.major, h.value)| <= h.size
            && (|EncHead(w, h.major, h.value)| == h.size ==> EncHead(w, h.major, h.value) == s[..h.size])
  {
    hide Pair, Quad;
    var h := DecHead(w, s).value;
    if h.size == 3 {
      PairBytes(s[1], s[2]);
    } else if h.size == 5 {
      QuadBytes(s[1], s[2], s[3], s[4]);
    }
  }

  lemma PairBytes(a: byte, b: byte)
    ensures Pair(a, b) / 256 == a && Pair(a, b) % 256 == b
  {
  }

  lemma QuadBytes(a: byte, b: byte, c: byte, d: byte)
    ensures var v := Quad(a, b, c, d);
            && v / 256 / 256 / 256 % 256 == a && v / 256 / 256 % 256 == b
            && v / 256 % 256 == c && v % 256 == d
  {
    var v := Quad(a, b, c, d);
    assert v / 256 == 256 * Pair(a, b) + c;
    assert v / 256 / 256 == Pair(a, b);
    PairBytes(a, b);
  }

  /** Below 2^16 the two encoders agree, and each decoder reads what the other wrote. */
  lemma WidthsAgree(major: Major, v: u64, w: Width, rest: seq<byte>)
    requires v < 0x1_0000
    ensures EncHead(Narrow, major, v) == EncHead(Wide, major, v)
    ensures DecHead(w, EncHead(Narrow, major, v) + rest) == Some(Head(|EncHead(Narrow, major, v)|, major, v))
  {
    hide Pair, Quad;
    HeadRoundTrip(w, major, v, rest);
  }

  /** put_head at offset `at` of a buffer. */
  method PutHead(w: Width, o: array<byte>, at: nat, major: Major, v: u64) returns (k: nat)
    requires at + |EncHead(w, major, v)| <= o.Length
    modifies o
    ensures k == |EncHead(w, major, v)|
    ensures o[..at + k] == old(o[..at]) + EncHead(w, major, v)
    ensures o[at + k..] == old(o[at + k..])
  {
    if v < 24 {
      o[at] := major * 32 + v;
      k := 1;
    } else if v < 256 {
      o[at], o[at + 1] := major * 32 + 24, v;
      k := 2;
    } else if w == Narrow || v < 65536 {
      o[at], o[at + 1], o[at + 2] := major * 32 + 25, v / 256 % 256, v % 256;
      k := 3;
    } else {
      o[at] := major * 32 + 26;
      o[at + 1] := v / 256 / 256 / 256 % 256;
      o[at + 2] := v / 256 / 256 % 256;
      o[at + 3] := v / 256 % 256;
      o[at + 4] := v % 256;
      k := 5;
    }
  }

  /** get_head on the bytes from `p` on. */
  method GetHead(w: Width, b: array<byte>, p: nat) returns (h: Option<Head>)
    requires p <= b.Length
    ensures h == DecHead(w, b[p..])
  {
    var n := b.Length - p;
    if n < 1 {
      return None;
    }
    var major, ai := b[p] / 32, b[p] % 32;
    if ai < 24 {
      return Some(Head(1, major, ai));
    }
    if ai == 24 && n >= 2 {
      return Some(Head(2, major, b[p + 1]));
    }
    if ai == 25 && n >= 3 {
      return Some(Head(3, major, Pair(b[p + 1], b[p + 2])));
    }
    if w == Wide && ai == 26 && n >= 5 {
      return Some(Head(5, major, Quad(b[p + 1], b[p + 2], b[p + 3], b[p + 4])));
    }
    h := None;
  }

  /** memcpy of a string into a buffer. */
  method CopyIn(o: array<byte>, at: nat, s: seq<byte>)
    requires at + |s| <= o.Length
    modifies o
    ensures o[..at + |s|] == old(o[..at]) + s
    ensures o[at + |s|..] == old(o[at + |s|..])
  {
    forall i | 0 <= i < |s| {
      o[at + i] := s[i];
    }
  }
}
