/** The request handlers of the raw plugins: a CBOR map in, a CBOR map out, built at a
    moving offset of a fixed buffer. */
module RawPlugins {
  import opened Sequences
  import opened Integers
  import opened CborHeads
  import opened CborMaps
  import opened CborLookup

  type Bytes = seq<byte>

  const KEY: Bytes := [107, 101, 121]
  const DATA: Bytes := [100, 97, 116, 97]
  const VALUE: Bytes := [118, 97, 108, 117, 101]
  const PLUGIN: Bytes := [112, 108, 117, 103, 105, 110, 58]
  const ADD: Bytes := [97, 100, 100]
  const X: Bytes := [120]
  const V: Bytes := [118]
  const N: Bytes := [110]

  /** The names of the entries, in ASCII. */
  lemma NamesAreAscii()
    ensures IsAscii(KEY, "key") && IsAscii(DATA, "data") && IsAscii(VALUE, "value") && IsAscii(PLUGIN, "plugin:")
    ensures IsAscii(ADD, "add") && IsAscii(X, "x") && IsAscii(V, "v") && IsAscii(N, "n")
  {
  }

  ghost predicate IsAscii(b: Bytes, s: string) {
    |b| == |s| && forall i | 0 <= i < |s| :: b[i] == s[i] as int < 128
  }

  datatype Reply = ReplyOk(body: Bytes) | ReplyErr

  /** A string and a number as put_head and memcpy write them. */
  function StringValue(text: bool, data: Bytes): Value
    requires |data| < 0x1_0000
  {
    Str(text, Written(Narrow, |data|), data)
  }

  function NumberValue(w: Width, v: u64): Value {
    Plain(0, Written(w, v), v % Limit(w))
  }

  /** {key: value} with a key of less than 24 bytes. */
  function Single(key: Bytes, value: Value): Map {
    Map(Direct, [Entry(Direct, key, value)])
  }

  lemma SingleBytes(key: Bytes, value: Value)
    requires |key| < 24 && ValidValue(value)
    ensures ValidMap(Single(key, value))
    ensures EncMap(Single(key, value))
            == [0xA1] + ([0x60 + |key|] + (key + (ValueHead(value) + Payload(value))))
  {
    var e := Entry(Direct, key, value);
    assert EncEntries([e]) == EncEntry(e) + EncEntries([]) by { assert [e][1..] == []; }
    assert EncEntries([e]) == EncEntry(e);
  }

  lemma SingleLookup(w: Width, key: Bytes, value: Value)
    requires |key| < 24 && ValidValue(value)
    ensures var m := Some(Single(key, value));
            var readable := Readable(w, value.form);
            && NumberOf(w, m, key) == (if readable && MajorOf(value) == 0 then Some(Argument(value)) else None)
            && StringOf(w, m, key, true) == (if readable && MajorOf(value) == 3 then Some(Payload(value)) else None)
            && StringOf(w, m, key, false) == (if readable && MajorOf(value) == 2 then Some(Payload(value)) else None)
  {
  }

  /** How many bytes of its buffer a handler writes for a key of `k` bytes and a string
      of `n`. */
  function BytesWritten(k: nat, major: Major, n: u64): nat {
    2 + k + |EncHead(Narrow, major, n)| + n
  }

  /** The writes stay inside the 300-byte buffer up to exactly these lengths of the
      requested or evicted key. */
  lemma BufferBounds(n: u64)
    requires n + 7 < 0x1_0000_0000_0000_0000
    ensures BytesWritten(|DATA|, 2, n) <= 300 <==> n <= 291
    ensures BytesWritten(|VALUE|, 3, 7 + n) <= 300 <==> n <= 283
    ensures BytesWritten(|KEY|, 3, n) <= 300 <==> n <= 292
  {
  }

  /** The map head, the key and the head of a string, written at the front. */
  method PutPrefix(out: array<byte>, key: Bytes, major: Major, n: u64) returns (o: nat)
    requires |key| < 24 && BytesWritten(|key|, major, n) <= out.Length
    modifies out
    ensures o == 2 + |key| + |EncHead(Narrow, major, n)|
    ensures out[..o] == [0xA1] + ([0x60 + |key|] + (key + EncHead(Narrow, major, n)))
  {
    o := PutHead(Narrow, out, 0, 5, 1);
    assert out[..o] == [0xA1];
    var k := PutHead(Narrow, out, o, 3, |key|);
    o := o + k;
    assert out[..o] == [0xA1] + [0x60 + |key|];
    CopyIn(out, o, key);
    o := o + |key|;
    assert out[..o] == [0xA1] + [0x60 + |key|] + key;
    k := PutHead(Narrow, out, o, major, n);
    o := o + k;
  }

  lemma PrefixAndString(key: Bytes, text: bool, data: Bytes)
    requires |key| < 24 && |data| < 0x1_0000
    ensures ([0xA1] + ([0x60 + |key|] + (key + EncHead(Narrow, if text then 3 else 2, |data|)))) + data
            == EncMap(Single(key, StringValue(text, data)))
  {
    hide DecHead, EncHead, EncForm, Written;
    var value := StringValue(text, data);
    EncodersWriteForms(Narrow, MajorOf(value), |data|);
    SingleBytes(key, value);
    assert ValueHead(value) == EncHead(Narrow, MajorOf(value), |data|);
  }

  /** fetch_blob: the key reversed, or an error when the request has no text key. */
  method FetchBlob(req: array<byte>, ghost m: Option<Map>) returns (r: Reply)
    requires Holds(Narrow, req[..], m)
    requires var k := StringOf(Narrow, m, KEY, true); k.Some? ==> |k.value| <= 291
    ensures var k := StringOf(Narrow, m, KEY, true);
            r == if k.None? then ReplyErr
                 else ReplyOk(EncMap(Single(DATA, StringValue(false, Reversed(k.value)))))
  {
    hide DecHead, EncHead, EncForm, EncMap, StringOf, Written;
    var key := FindString(Narrow, req, KEY, true, m);
    if key.None? {
      return ReplyErr;
    }
    var keyLen := |key.value|;
    var out := new byte[300];
    BufferBounds(keyLen);
    var o := PutPrefix(out, DATA, 2, keyLen);
    ghost var prefix := out[..o];
    for i := 0 to keyLen
      invariant out[..o] == prefix
      invariant out[o..o + i] == Reversed(key.value)[..i]
    {
      ReversedAt(key.value, i);
      out[o + i] := key.value[keyLen - 1 - i];
      assert out[o..o + i + 1] == out[o..o + i] + [out[o + i]];
    }
    assert out[o..o + keyLen] == Reversed(key.value);
    assert out[..o + keyLen] == out[..o] + out[o..o + keyLen];
    PrefixAndString(DATA, false, Reversed(key.value));
    r := ReplyOk(out[..o + keyLen]);
  }

  /** kv_get: "plugin:" and the key; a request without a text key counts as the empty
      key. */
  method KvGet(req: array<byte>, ghost m: Option<Map>) returns (r: Reply)
    requires Holds(Narrow, req[..], m)
    requires var k := StringOf(Narrow, m, KEY, true); k.Some? ==> |k.value| <= 283
    ensures var k := StringOf(Narrow, m, KEY, true);
            var s := if k.Some? then k.value else [];
            r == ReplyOk(EncMap(Single(VALUE, StringValue(true, PLUGIN + s))))
  {
    hide DecHead, EncHead, EncForm, EncMap, StringOf, Written;
    var key := FindString(Narrow, req, KEY, true, m);
    var s := if key.Some? then key.value else [];
    var v := |s|;
    var out := new byte[300];
    BufferBounds(v);
    var o := PutPrefix(out, VALUE, 3, 7 + v);
    ghost var prefix := out[..o];
    CopyIn(out, o, PLUGIN);
    o := o + 7;
    CopyIn(out, o, s);
    o := o + v;
    assert out[..o] == prefix + PLUGIN + s == prefix + (PLUGIN + s);
    PrefixAndString(VALUE, true, PLUGIN + s);
    r := ReplyOk(out[..o]);
  }

  /** raw_storage_emit_evicted: {"key": k}, which is also the shape of a request. */
  method EmitEvicted(key: Bytes) returns (body: Bytes)
    requires |key| <= 292
    ensures body == EncMap(Single(KEY, StringValue(true, key)))
  {
    hide DecHead, EncHead, EncForm, EncMap, StringOf, Written;
    var out := new byte[300];
    BufferBounds(|key|);
    var o := PutPrefix(out, KEY, 3, |key|);
    ghost var prefix := out[..o];
    CopyIn(out, o, key);
    o := o + |key|;
    assert out[..o] == prefix + key;
    PrefixAndString(KEY, true, key);
    body := out[..o];
  }

  method ToBuffer(s: Bytes) returns (b: array<byte>)
    ensures fresh(b) && b[..] == s
  {
    b := new byte[|s|];
    CopyIn(b, 0, s);
    assert b[..] == b[..0 + |s|];
  }

  /** Encoding {"key": k}, handling it and decoding the reply gives k reversed. */
  method FetchBlobEndToEnd(key: Bytes) returns (data: Option<Bytes>)
    requires |key| <= 291
    ensures data == Some(Reversed(key))
  {
    hide DecHead, EncHead, EncForm, EncEntries, StringOf, Written, FirstMatch;
    var body := EmitEvicted(key);
    var req := ToBuffer(body);
    ghost var m := Some(Single(KEY, StringValue(true, key)));
    SingleBytes(KEY, StringValue(true, key));
    SingleLookup(Narrow, KEY, StringValue(true, key));
    var r := FetchBlob(req, m);
    var reply := ToBuffer(r.body);
    SingleBytes(DATA, StringValue(false, Reversed(key)));
    SingleLookup(Narrow, DATA, StringValue(false, Reversed(key)));
    data := FindString(Narrow, reply, DATA, false, Some(Single(DATA, StringValue(false, Reversed(key)))));
  }

  method KvGetEndToEnd(key: Bytes) returns (value: Option<Bytes>)
    requires |key| <= 283
    ensures value == Some(PLUGIN + key)
  {
    hide DecHead, EncHead, EncForm, EncEntries, StringOf, Written, FirstMatch;
    var body := EmitEvicted(key);
    var req := ToBuffer(body);
    ghost var m := Some(Single(KEY, StringValue(true, key)));
    SingleBytes(KEY, StringValue(true, key));
    SingleLookup(Narrow, KEY, StringValue(true, key));
    var r := KvGet(req, m);
    var reply := ToBuffer(r.body);
    SingleBytes(VALUE, StringValue(true, PLUGIN + key));
    SingleLookup(Narrow, VALUE, StringValue(true, PLUGIN + key));
    value := FindString(Narrow, reply, VALUE, true, Some(Single(VALUE, StringValue(true, PLUGIN + key))));
  }

  /** {key: number} with a one-byte key, at the front of a buffer: reply_v and enc_n. */
  method PutNumber(w: Width, out: array<byte>, key: byte, v: u64) returns (o: nat)
    requires out.Length >= 8
    modifies out
    ensures o <= 8 && out[..o] == EncMap(Single([key], NumberValue(w, v)))
  {
    hide EncForm, EncMap;
    o := PutHead(w, out, 0, 5, 1);
    assert out[..o] == [0xA1];
    var k := PutHead(w, out, o, 3, 1);
    o := o + k;
    assert out[..o] == [0xA1] + [0x61];
    out[o] := key;
    o := o + 1;
    assert out[..o] == [0xA1] + [0x61] + [key];
    k := PutHead(w, out, o, 0, v);
    o := o + k;
    NumberBytes(w, key, v);
  }

  lemma NumberBytes(w: Width, key: byte, v: u64)
    ensures EncMap(Single([key], NumberValue(w, v))) == [0xA1] + [0x61] + [key] + EncHead(w, 0, v)
  {
    hide EncHead, EncForm, EncMap;
    EncodersWriteForms(w, 0, v);
    SingleBytes([key], NumberValue(w, v));
    assert ValueHead(NumberValue(w, v)) + Payload(NumberValue(w, v)) == EncHead(w, 0, v);
  }

  function OrZero(v: Option<nat>): nat {
    if v.Some? then v.value else 0
  }

  /** square of the calc plugin (Wide) and kv_square (Narrow); a request without the
      number counts as 0. */
  method Square(w: Width, req: array<byte>, ghost m: Option<Map>) returns (r: Reply)
    requires Holds(w, req[..], m)
    ensures var x := OrZero(NumberOf(w, m, X));
            x < Limit(w) && x * x < TWO_TO_64 && r == ReplyOk(EncMap(Single(V, NumberValue(w, x * x))))
  {
    hide DecHead, EncHead, EncForm, EncMap, NumberOf, FirstMatch;
    var x := FindUint(w, req, X, m);
    NumbersInRange(w, m, X);
    var n := if x.Some? then x.value else 0;
    SquareInRange(w, n);
    var out := new byte[16];
    var o := PutNumber(w, out, V[0], n * n);
    r := ReplyOk(out[..o]);
  }

  /** The kv plugin's handler also records the thread it runs on. */
  class KvPlugin {
    var squareThread: nat

    method KvSquare(thread: nat, req: array<byte>, ghost m: Option<Map>) returns (r: Reply)
      requires Holds(Narrow, req[..], m)
      modifies this
      ensures squareThread == thread
      ensures var x := OrZero(NumberOf(Narrow, m, X));
              x < 0x1_0000 && x * x < TWO_TO_64 && r == ReplyOk(EncMap(Single(V, NumberValue(Narrow, x * x))))
    {
      squareThread := thread;
      r := Square(Narrow, req, m);
    }
  }

  /** A number the lookup finds has a head the decoder can read. */
  lemma NumbersInRange(w: Width, m: Option<Map>, key: Bytes)
    requires m.Some? ==> ValidMap(m.value)
    ensures OrZero(NumberOf(w, m, key)) < Limit(w)
  {
    if NumberOf(w, m, key).Some? {
      var es := m.value.entries;
      FirstMatchIsFirst(w, es, key, 0);
      var i := FirstMatch(w, es, key, 0).value;
      assert EntryReadable(w, es[i]) && ValidEntry(es[i]);
    }
  }

  lemma TimesMonotone(a: nat, b: nat, c: nat)
    requires a <= b
    ensures a * c <= b * c
  {
  }

  lemma SquareBounds(n: nat, top: nat)
    ensures n <= top ==> n * n <= top * top
    ensures n > top ==> n * n >= (top + 1) * (top + 1)
  {
    if n <= top {
      TimesMonotone(n, top, n);
      TimesMonotone(n, top, top);
    } else {
      TimesMonotone(top + 1, n, n);
      TimesMonotone(top + 1, n, top + 1);
    }
  }

  lemma SquareInRange(w: Width, n: nat)
    requires n < Limit(w)
    ensures n * n < 0x1_0000_0000_0000_0000
  {
    SquareBounds(n, 0xFFFF_FFFF);
  }

  /** The reply decodes to the square modulo what the plugin's heads carry, and to the
      square itself exactly for x up to 65535 in calc and up to 255 in kv. */
  lemma SquareDecodes(w: Width, x: nat)
    requires x < Limit(w) && x * x < 0x1_0000_0000_0000_0000
    ensures ValidMap(Single(V, NumberValue(w, x * x)))
    ensures NumberOf(w, Some(Single(V, NumberValue(w, x * x))), V) == Some(x * x % Limit(w))
    ensures x * x % Limit(w) == x * x <==> x <= (if w == Narrow then 255 else 65535)
  {
    hide EncForm, EncMap, NumberOf;
    SingleBytes(V, NumberValue(w, x * x));
    SingleLookup(w, V, NumberValue(w, x * x));
    SquareExactIff(w, x, x * x);
  }

  lemma SquareExactIff(w: Width, x: nat, square: nat)
    requires square == x * x
    ensures square % Limit(w) == square <==> x <= (if w == Narrow then 255 else 65535)
  {
    SquareBounds(x, if w == Narrow then 255 else 65535);
  }

  /** {key: number} in a buffer of its own. */
  method NumberRequest(w: Width, key: byte, n: u64) returns (req: array<byte>)
    ensures fresh(req) && Holds(w, req[..], Some(Single([key], NumberValue(w, n))))
    ensures NumberOf(w, Some(Single([key], NumberValue(w, n))), [key]) == Some(n % Limit(w))
  {
    hide DecHead, EncHead, EncForm, EncMap, NumberOf, Written, FirstMatch;
    var out := new byte[8];
    var k := PutNumber(w, out, key, n);
    req := ToBuffer(out[..k]);
    SingleBytes([key], NumberValue(w, n));
    SingleLookup(w, [key], NumberValue(w, n));
  }

  method NumberReply(w: Width, body: Bytes, key: byte, ghost n: u64) returns (v: Option<nat>)
    requires body == EncMap(Single([key], NumberValue(w, n)))
    ensures v == Some(n % Limit(w))
  {
    hide DecHead, EncHead, EncForm, EncMap, NumberOf, Written, FirstMatch;
    var reply := ToBuffer(body);
    SingleBytes([key], NumberValue(w, n));
    SingleLookup(w, [key], NumberValue(w, n));
    v := FindUint(w, reply, [key], Some(Single([key], NumberValue(w, n))));
  }

  /** Encoding {"x": x}, handling it and decoding the reply. */
  method SquareEndToEnd(w: Width, x: nat) returns (v: Option<nat>)
    requires x < Limit(w)
    ensures v == Some(x * x % Limit(w))
    ensures v == Some(x * x) <==> x <= (if w == Narrow then 255 else 65535)
  {
    hide EncMap, NumberOf, Holds, Single, NumberValue;
    var req := NumberRequest(w, X[0], x);
    assert x % Limit(w) == x && X == [X[0]] && V == [V[0]];
    ghost var square := x * x;
    SquareInRange(w, x);
    var r := Square(w, req, Some(Single(X, NumberValue(w, x))));
    v := NumberReply(w, r.body, V[0], square);
    SquareExactIff(w, x, square);
  }

  /** counter_arg: a bare unsigned integer, 41 plus the argument. */
  method CounterArg(req: array<byte>, ghost m: Option<Map>) returns (body: Bytes)
    requires Holds(Wide, req[..], m)
    ensures OrZero(NumberOf(Wide, m, ADD)) < Limit(Wide)
    ensures body == EncHead(Wide, 0, 41 + OrZero(NumberOf(Wide, m, ADD)))
  {
    hide EncHead, NumberOf;
    var x := FindUint(Wide, req, ADD, m);
    NumbersInRange(Wide, m, ADD);
    var out := new byte[8];
    var o := PutHead(Wide, out, 0, 0, 41 + if x.Some? then x.value else 0);
    assert out[..0] == [];
    body := out[..o];
  }

  lemma CounterArgDecodes(x: nat, rest: Bytes)
    requires x < Limit(Wide)
    ensures DecHead(Wide, EncHead(Wide, 0, 41 + x) + rest)
            == Some(Head(|EncHead(Wide, 0, 41 + x)|, 0, (41 + x) % Limit(Wide)))
    ensures (41 + x) % Limit(Wide) == 41 + x <==> x <= 0x1_0000_0000 - 42
  {
    hide DecHead, EncHead;
    HeadRoundTrip(Wide, 0, 41 + x, rest);
  }

  /** dec_x of the life plugin: the fixed layout of {"x": uint}. */
  function DecXOf(b: Bytes): nat {
    if |b| < 4 || b[0] != 0xA1 || b[1] != 0x61 || b[2] != 120 then 0
    else
      var ai := b[3] % 32;
      if ai < 24 then ai
      else if ai == 24 && |b| >= 5 then b[4]
      else if ai == 25 && |b| >= 6 then Pair(b[4], b[5])
      else 0
  }

  /** The layout dec_x knows: one entry, with the key "x" and the shortest heads before it. */
  predicate FixedLayout(m: Map) {
    m.form == Direct && |m.entries| == 1 && m.entries[0].keyForm == Direct && m.entries[0].key == X
  }

  lemma FixedLayoutIsSingle(m: Map)
    requires FixedLayout(m)
    ensures m == Single(X, m.entries[0].value)
  {
  }

  /** On the fixed layout, whatever the value's type and head form, dec_x gives what the
      scanning lookup gives (0 when it finds nothing) exactly when the value is an unsigned
      integer, or its head is unreadable or carries 0: dec_x ignores the major type. */
  lemma DecXOnFixedLayout(value: Value, rest: Bytes)
    requires ValidValue(value)
    ensures ValidMap(Single(X, value))
    ensures DecXOf(EncMap(Single(X, value)) + rest) == OrZero(NumberOf(Narrow, Some(Single(X, value)), X))
            <==> MajorOf(value) == 0 || Argument(value) == 0 || !Readable(Narrow, value.form)
  {
    hide EncForm, EncMap, NumberOf, FirstMatch, Pair;
    SingleBytes(X, value);
    SingleLookup(Narrow, X, value);
    var b := EncMap(Single(X, value)) + rest;
    var tail := Payload(value) + rest;
    ThreeThenRest(0xA1, 0x61, 120, ValueHead(value), Payload(value), rest);
    assert b == [0xA1] + ([0x61] + ([120] + (ValueHead(value) + tail)));
    DecodeForm(Narrow, value.form, MajorOf(value), Argument(value), tail);
    DecXReadsHead(b);
  }

  /** A head that begins like one with its argument in the initial byte is that head. */
  lemma FirstByte(f: Form, major: Major, v: u64, n: u64)
    requires Fits(f, v) && n < 24
    ensures EncForm(f, major, v)[0] == major * 32 + n <==> f == Direct && v == n
  {
  }

  lemma HeadThenEntries(m: Map, rest: Bytes)
    requires ValidMap(m) && m.form == Direct && |m.entries| == 1
    ensures var e := m.entries[0];
            EncMap(m) + rest == [0xA1] + (KeyHead(e) + (e.key + (ValueHead(e.value) + (Payload(e.value) + rest))))
  {
    hide EncEntry;
    var e := m.entries[0];
    assert m.entries[1..] == [];
    assert EncEntries(m.entries) == EncEntry(e) + [];
    assert EncMap(m) == [0xA1] + EncEntry(e);
    hide EncMap, EncEntries, EncForm, KeyHead, ValueHead, Payload, ValidValue, Fits;
    assert EncMap(m) + rest == [0xA1] + (EncEntry(e) + rest);
    EntryThenRest(e, rest);
  }

  lemma EntryThenRest(e: Entry, rest: Bytes)
    requires ValidEntry(e)
    ensures EncEntry(e) + rest == KeyHead(e) + (e.key + (ValueHead(e.value) + (Payload(e.value) + rest)))
  {
  }

  /** Off that layout dec_x gives 0: its first three bytes tell. */
  lemma DecXElsewhere(m: Map, rest: Bytes)
    requires ValidMap(m) && !FixedLayout(m)
    ensures DecXOf(EncMap(m) + rest) == 0
  {
    var b := EncMap(m) + rest;
    FirstByte(m.form, 5, |m.entries|, 1);
    if b[0] == 0xA1 {
      var e := m.entries[0];
      FirstByte(e.keyForm, 3, |e.key|, 1);
      hide EncMap, EncForm, ValueHead, Payload;
      HeadThenEntries(m, rest);
      assert b[1] == KeyHead(e)[0];
      if b[1] == 0x61 && |b| > 2 {
        assert |KeyHead(e)| == 1 by { DirectIsOneByte(3, |e.key|); }
        assert b[2] == e.key[0] && (e.key[0] == 120 ==> e.key == X);
      }
    }
  }

  lemma DirectIsOneByte(major: Major, v: u64)
    requires v < 24
    ensures |EncForm(Direct, major, v)| == 1
  {
  }

  /** On every well-formed one-level map, in any encoding and with anything behind it, dec_x
      gives what the scanning lookup gives (0 when it finds nothing) exactly when: on its
      fixed layout the value is an unsigned integer, or its head is unreadable or carries 0;
      and on any other there is no "x" to find, or it is 0. */
  lemma DecXRefinesLookupIff(m: Map, rest: Bytes)
    requires ValidMap(m)
    ensures DecXOf(EncMap(m) + rest) == OrZero(NumberOf(Narrow, Some(m), X))
            <==> if FixedLayout(m)
                 then var v := m.entries[0].value;
                      MajorOf(v) == 0 || Argument(v) == 0 || !Readable(Narrow, v.form)
                 else OrZero(NumberOf(Narrow, Some(m), X)) == 0
  {
    hide EncMap, NumberOf, DecXOf;
    if FixedLayout(m) {
      FixedLayoutIsSingle(m);
      assert ValidEntry(m.entries[0]);
      DecXOnFixedLayout(m.entries[0].value, rest);
    } else {
      DecXElsewhere(m, rest);
    }
  }

  /** Two inputs it fails on: {"x": 5} with the entry count in a byte of its own, which the
      lookup reads, and {"x": h'00'}, a byte string of length 1, which it does not take. */
  lemma DecXFails()
    ensures var five := Map(One, [Entry(Direct, X, Plain(0, Direct, 5))]);
            ValidMap(five) && NumberOf(Narrow, Some(five), X) == Some(5) && DecXOf(EncMap(five)) == 0
    ensures var text := Single(X, Str(false, Direct, [0]));
            ValidMap(text) && NumberOf(Narrow, Some(text), X) == None && DecXOf(EncMap(text)) == 1
  {
    var five := Map(One, [Entry(Direct, X, Plain(0, Direct, 5))]);
    assert EncMap(five) + [] == EncMap(five);
    DecXElsewhere(five, []);
    var value := Str(false, Direct, [0]);
    SingleBytes(X, value);
    SingleLookup(Narrow, X, value);
    assert EncMap(Single(X, value)) == [0xA1, 0x61, 120, 0x41, 0];
  }

  lemma ThreeThenRest(a: byte, b: byte, c: byte, v: Bytes, d: Bytes, rest: Bytes)
    ensures var s := ([a] + ([b] + ([c] + (v + d)))) + rest;
            s == [a] + ([b] + ([c] + (v + (d + rest)))) && s[3..] == v + (d + rest)
  {
  }

  /** Behind its three fixed bytes dec_x reads what get_head would, major type aside. */
  lemma DecXReadsHead(b: Bytes)
    requires |b| >= 4 && b[0] == 0xA1 && b[1] == 0x61 && b[2] == 120
    ensures DecXOf(b) == var h := DecHead(Narrow, b[3..]); if h.Some? then h.value.value else 0
  {
    hide Pair;
  }

  /** life_echo: the reply {"n": x} and the duplicate {"n": 7777} the host must drop. */
  method LifeEcho(req: array<byte>) returns (first: Bytes, duplicate: Bytes)
    ensures first == EncMap(Single(N, NumberValue(Narrow, DecXOf(req[..]))))
    ensures duplicate == EncMap(Single(N, NumberValue(Narrow, 7777)))
  {
    hide DecHead, EncHead, EncForm, EncMap, Pair;
    var n := req.Length;
    var x := 0;
    if n < 4 || req[0] != 0xA1 || req[1] != 0x61 || req[2] != X[0] {
      x := 0;
    } else {
      var ai := req[3] % 32;
      if ai < 24 {
        x := ai;
      } else if ai == 24 && n >= 5 {
        x := req[4];
      } else if ai == 25 && n >= 6 {
        x := Pair(req[4], req[5]);
      }
    }
    var out := new byte[8];
    var k := PutNumber(Narrow, out, N[0], x);
    first := out[..k];
    k := PutNumber(Narrow, out, N[0], 7777);
    duplicate := out[..k];
  }

  /** Echoing {"x": v} for any v below 2^16 and decoding the first reply gives v. */
  method LifeEchoEndToEnd(v: nat) returns (n: Option<nat>)
    requires v < 0x1_0000
    ensures n == Some(v)
  {
    hide DecHead, EncHead, EncForm, EncMap, DecXOf, NumberOf;
    var out := new byte[8];
    var k := PutNumber(Narrow, out, X[0], v);
    var req := ToBuffer(out[..k]);
    var first, duplicate := LifeEcho(req);
    var reply := ToBuffer(first);
    ghost var m := Single(X, NumberValue(Narrow, v));
    DecXOnFixedLayout(NumberValue(Narrow, v), []);
    assert EncMap(m) + [] == EncMap(m);
    SingleLookup(Narrow, X, NumberValue(Narrow, v));
    SingleBytes(N, NumberValue(Narrow, v));
    SingleLookup(Narrow, N, NumberValue(Narrow, v));
    n := FindUint(Narrow, reply, N, Some(Single(N, NumberValue(Narrow, v))));
  }
}
