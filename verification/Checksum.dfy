/** The polynomial checksum and the byte sum of the imported codec libraries, written in
    C, C++, Go and Rust. A pointer is an array reference that may be null. */
module Checksums {
  import opened Sequences
  import opened Integers

  function Pow31(n: nat): (p: nat) {
    if n == 0 then 1 else 31 * Pow31(n - 1)
  }

  /** The first `k` terms of the sum of b[i] * 31^(n - 1 - i). */
  function Terms(b: seq<byte>, k: nat): (t: nat)
    requires k <= |b|
  {
    if k == 0 then 0 else Terms(b, k - 1) + b[k - 1] * Pow31(|b| - k)
  }

  function Poly(seed: nat, b: seq<byte>): (p: nat) {
    seed * Pow31(|b|) + Terms(b, |b|)
  }

  /** The value of the polynomial, reduced once, at the end. */
  function Checksum(seed: nat, b: seq<byte>): (h: u32) {
    Poly(seed, b) % TWO_TO_32
  }

  /** One turn of the loop: both operations wrap. */
  function Turn(h: u32, x: byte): (h': u32) {
    (h * 31 % TWO_TO_32 + x) % TWO_TO_32
  }

  lemma {:induction false} TermsOfLonger(b: seq<byte>, x: byte, k: nat)
    requires k <= |b|
    ensures Terms(b + [x], k) == 31 * Terms(b, k)
  {
    if k > 0 {
      TermsOfLonger(b, x, k - 1);
      var p := Pow31(|b| - k);
      assert (b + [x])[k - 1] == b[k - 1] && Pow31(|b + [x]| - k) == 31 * p;
      assert b[k - 1] * (31 * p) == 31 * (b[k - 1] * p);
    }
  }

  lemma OneMoreByte(seed: nat, b: seq<byte>, x: byte)
    ensures Poly(seed, b + [x]) == 31 * Poly(seed, b) + x
  {
    TermsOfLonger(b, x, |b|);
    assert (b + [x])[|b|] == x && Pow31(0) == 1;
    assert seed * (31 * Pow31(|b|)) == 31 * (seed * Pow31(|b|));
  }

  lemma WholeTurns(a: int, k: int)
    ensures (a + TWO_TO_32 * k) % TWO_TO_32 == a % TWO_TO_32
  {
    var q, r := a / TWO_TO_32, a % TWO_TO_32;
    assert a + TWO_TO_32 * k == TWO_TO_32 * (q + k) + r;
  }

  lemma TurnsAgree(p: nat, x: byte)
    ensures Turn(p % TWO_TO_32, x) == (31 * p + x) % TWO_TO_32
  {
    var h := p % TWO_TO_32;
    WholeTurns(31 * h + x, 31 * (p / TWO_TO_32));
    WholeTurns(31 * h % TWO_TO_32 + x, 31 * h / TWO_TO_32);
  }

  /** Reducing at every turn or once at the end is the same. */
  lemma ChecksumTurn(seed: nat, b: seq<byte>, x: byte)
    ensures Checksum(seed, b + [x]) == Turn(Checksum(seed, b), x)
  {
    OneMoreByte(seed, b, x);
    TurnsAgree(Poly(seed, b), x);
  }

  lemma NothingHashed(seed: u32)
    ensures Checksum(seed, []) == seed
  {
  }

  /** Hashing a concatenation is hashing the second part seeded with the hash of the
      first, so a buffer may be hashed piece by piece. */
  lemma {:induction false} HashInPieces(seed: nat, a: seq<byte>, b: seq<byte>)
    ensures Checksum(seed, a + b) == Checksum(Checksum(seed, a), b)
    decreases b
  {
    if b == [] {
      assert a + b == a;
      NothingHashed(Checksum(seed, a));
    } else {
      var last := b[|b| - 1];
      var rest := b[..|b| - 1];
      assert b == rest + [last] && a + b == (a + rest) + [last];
      HashInPieces(seed, a, rest);
      ChecksumTurn(seed, a + rest, last);
      ChecksumTurn(Checksum(seed, a), rest, last);
    }
  }

  /** 31 is invertible modulo 2^32. */
  const INVERSE_31: u32 := 3186588639

  lemma InverseAlgebra(d: int, h: int, q: int)
    requires d == 31 * h - TWO_TO_32 * q
    ensures d * INVERSE_31 == h + TWO_TO_32 * (23 * h - INVERSE_31 * q)
  {
  }

  lemma TurnInverse(h: u32, x: byte)
    ensures (Turn(h, x) - x) * INVERSE_31 % TWO_TO_32 == h
  {
    TurnsAgree(h, x);
    hide Turn;
    var q := (31 * h + x) / TWO_TO_32;
    var d := Turn(h, x) - x;
    InverseAlgebra(d, h, q);
    WholeTurns(h, 23 * h - INVERSE_31 * q);
  }

  /** Different seeds stay apart, whatever is hashed after them. */
  lemma {:induction false} SeedsStayApart(seed: u32, seed': u32, b: seq<byte>)
    requires seed != seed'
    ensures Checksum(seed, b) != Checksum(seed', b)
    decreases b
  {
    if b == [] {
      NothingHashed(seed);
      NothingHashed(seed');
    } else {
      var last := b[|b| - 1];
      var rest := b[..|b| - 1];
      assert b == rest + [last];
      SeedsStayApart(seed, seed', rest);
      ChecksumTurn(seed, rest, last);
      ChecksumTurn(seed', rest, last);
      TurnInverse(Checksum(seed, rest), last);
      TurnInverse(Checksum(seed', rest), last);
    }
  }

  lemma TurnsApart(h: u32, x: byte, y: byte)
    requires x != y
    ensures Turn(h, x) != Turn(h, y)
  {
  }

  /** A single changed byte always changes the checksum. */
  lemma OneByteChanged(seed: u32, b: seq<byte>, k: nat, y: byte)
    requires k < |b| && b[k] != y
    ensures Checksum(seed, b[k := y]) != Checksum(seed, b)
  {
    var front, back := b[..k], b[k + 1..];
    assert b == (front + [b[k]]) + back && b[k := y] == (front + [y]) + back;
    HashInPieces(seed, front + [b[k]], back);
    HashInPieces(seed, front + [y], back);
    ChecksumTurn(seed, front, b[k]);
    ChecksumTurn(seed, front, y);
    TurnsApart(Checksum(seed, front), b[k], y);
    SeedsStayApart(Checksum(seed, front + [b[k]]), Checksum(seed, front + [y]), back);
  }

  /** What a pointer and a length stand for. */
  function Read(buf: array?<byte>, len: u32): (b: seq<byte>)
    requires buf != null ==> len <= buf.Length
    reads buf
  {
    if buf == null then [] else buf[..len]
  }

  /** The C++ loop. */
  method CrcCpp(seed: u32, buf: array?<byte>, len: u32) returns (h: u32)
    requires if buf == null then len == 0 else len <= buf.Length
    ensures h == Checksum(seed, Read(buf, len))
  {
    h := seed;
    NothingHashed(seed);
    for i := 0 to len
      invariant h == Checksum(seed, if buf == null then [] else buf[..i])
    {
      assert buf[..i + 1] == buf[..i] + [buf[i]];
      ChecksumTurn(seed, buf[..i], buf[i]);
      h := Turn(h, buf[i]);
    }
  }

  /** The C library, which also records the calling thread. */
  class Libcodec {
    var lastCrcThread: nat

    method Crc(thread: nat, seed: u32, buf: array?<byte>, len: u32) returns (h: u32)
      requires if buf == null then len == 0 else len <= buf.Length
      modifies this
      ensures h == Checksum(seed, Read(buf, len)) && lastCrcThread == thread
    {
      lastCrcThread := thread;
      h := seed;
      NothingHashed(seed);
      for i := 0 to len
        invariant h == Checksum(seed, if buf == null then [] else buf[..i]) && lastCrcThread == thread
      {
        assert buf[..i + 1] == buf[..i] + [buf[i]];
        ChecksumTurn(seed, buf[..i], buf[i]);
        h := Turn(h, buf[i]);
      }
    }
  }

  /** The Go loop, over a slice that is made only of a non-empty buffer. */
  method CrcGo(seed: u32, buf: array?<byte>, n: u32) returns (h: u32)
    requires if buf == null then n == 0 else n <= buf.Length
    ensures h == Checksum(seed, Read(buf, n))
  {
    h := seed;
    NothingHashed(seed);
    if n > 0 {
      var slice := buf[..n];
      for i := 0 to |slice|
        invariant h == Checksum(seed, slice[..i])
      {
        assert slice[..i + 1] == slice[..i] + [slice[i]];
        ChecksumTurn(seed, slice[..i], slice[i]);
        h := Turn(h, slice[i]);
      }
      assert slice[..|slice|] == slice;
    }
  }

  function Fold<A, B>(f: (A, B) -> A, init: A, items: seq<B>): (r: A) {
    if items == [] then init else Fold(f, f(init, items[0]), items[1..])
  }

  lemma {:induction false} FoldIsChecksum(seed: u32, data: seq<byte>)
    ensures Fold(Turn, seed, data) == Checksum(seed, data)
    decreases data
  {
    NothingHashed(seed);
    if data != [] {
      assert data == [data[0]] + data[1..];
      assert [] + [data[0]] == [data[0]];
      ChecksumTurn(seed, [], data[0]);
      FoldIsChecksum(Turn(seed, data[0]), data[1..]);
      HashInPieces(seed, [data[0]], data[1..]);
    }
  }

  /** The Rust fold; a null buffer reads as empty whatever the length says. */
  function CrcRust(seed: u32, buf: array?<byte>, len: u32): (h: u32)
    requires buf != null ==> len <= buf.Length
    reads buf
    ensures h == Checksum(seed, Read(buf, len))
  {
    var data := if buf == null || len == 0 then [] else buf[..len];
    FoldIsChecksum(seed, data);
    Fold(Turn, seed, data)
  }

  function Sum(b: seq<byte>): (t: nat)
    ensures t <= 255 * |b|
  {
    if b == [] then 0 else Sum(b[..|b| - 1]) + b[|b| - 1]
  }

  lemma SumOneMore(b: seq<byte>, i: nat)
    requires i < |b|
    ensures Sum(b[..i + 1]) == Sum(b[..i]) + b[i]
  {
    assert b[..i + 1][..i] == b[..i];
  }

  /** C and C++: the wrapping 64-bit accumulator never wraps. */
  method SlowSumC(src: array?<byte>, len: u32, out: array<u64>) returns (status: int)
    requires out.Length == 1 && if src == null then len == 0 else len <= src.Length
    modifies out
    ensures status == 0 && out[0] == old(Sum(Read(src, len)))
  {
    ghost var bytes := Read(src, len);
    var t: u64 := 0;
    for i := 0 to len
      invariant t == Sum(bytes[..i])
    {
      SumOneMore(bytes, i);
      assert t + src[i] < TWO_TO_64;
      t := (t + src[i]) % TWO_TO_64;
    }
    assert bytes[..len] == bytes;
    out[0] := t;
    status := 0;
  }

  method SlowSumGo(src: array?<byte>, n: u32, out: array?<u64>) returns (status: int)
    requires out != null ==> out.Length == 1
    requires if src == null then n == 0 else n <= src.Length
    modifies out
    ensures if out == null then status == -1
            else status == 0 && out[0] == old(Sum(Read(src, n)))
  {
    if out == null {
      return -1;
    }
    var t: u64 := 0;
    if n > 0 {
      var slice := src[..n];
      for i := 0 to |slice|
        invariant t == Sum(slice[..i])
      {
        SumOneMore(slice, i);
        assert t + slice[i] < TWO_TO_64;
        t := (t + slice[i]) % TWO_TO_64;
      }
      assert slice[..|slice|] == slice;
    }
    out[0] := t;
    status := 0;
  }

  /** An iterator sum from `t` on, with checked additions. */
  function IterSum(t: u64, data: seq<byte>): (r: Option<u64>)
    decreases data
  {
    if data == [] then Some(t)
    else if t + data[0] >= TWO_TO_64 then None
    else IterSum(t + data[0], data[1..])
  }

  lemma SumSplit(a: seq<byte>, b: seq<byte>)
    ensures Sum(a + b) == Sum(a) + Sum(b)
    decreases b
  {
    if b == [] {
      assert a + b == a;
    } else {
      assert (a + b)[..|a + b| - 1] == a + b[..|b| - 1];
      SumSplit(a, b[..|b| - 1]);
    }
  }

  /** The checked sum fails exactly when the mathematical sum does not fit. */
  lemma {:induction false} IterSumFitsIff(t: u64, data: seq<byte>)
    ensures IterSum(t, data) == if t + Sum(data) < TWO_TO_64 then Some(t + Sum(data)) else None
    decreases data
  {
    if data != [] {
      assert data == [data[0]] + data[1..];
      SumSplit([data[0]], data[1..]);
      assert Sum([data[0]]) == data[0] by { assert [data[0]][..0] == []; }
      if t + data[0] < TWO_TO_64 {
        IterSumFitsIff(t + data[0], data[1..]);
      }
    }
  }

  /** Rust: the sum panics for no buffer whose length fits 32 bits. */
  method SlowSumRust(src: array?<byte>, len: u32, out: array?<u64>) returns (status: int)
    requires out != null ==> out.Length == 1
    requires src != null ==> len <= src.Length
    modifies out
    ensures if out == null then status == -1
            else status == 0 && out[0] == old(Sum(Read(src, len)))
  {
    if out == null {
      return -1;
    }
    var data := if src == null || len == 0 then [] else src[..len];
    IterSumFitsIff(0, data);
    out[0] := IterSum(0, data).value;
    status := 0;
  }
}
