/** One-level CBOR maps with text keys, and the scanning lookup over them. */
module CborMaps {
  import opened Sequences
  import opened Integers
  import opened CborHeads

  /** The head forms of RFC 8949, section 3: the argument in the initial byte, or in the
      following 1, 2, 4 or 8 bytes. A well-formed head need not be the shortest one. */
  datatype Form = Direct | One | Two | Four | Eight

  predicate Fits(f: Form, v: u64) {
    match f
    case Direct => v < 24
    case One => v < 0x100
    case Two => v < 0x1_0000
    case Four => v < 0x1_0000_0000
    case Eight => true
  }

  function FourBytesOf(v: u64): (s: seq<byte>)
    ensures |s| == 4
  {
    [v / 256 / 256 / 256 % 256, v / 256 / 256 % 256, v / 256 % 256, v % 256]
  }

  function EncForm(f: Form, major: Major, v: u64): (s: seq<byte>)
    requires Fits(f, v)
    ensures 1 <= |s| <= 9
  {
    match f
    case Direct => [major * 32 + v]
    case One => [major * 32 + 24, v]
    case Two => [major * 32 + 25, v / 256 % 256, v % 256]
    case Four => [major * 32 + 26] + FourBytesOf(v)
    case Eight => [major * 32 + 27] + FourBytesOf(v / 0x1_0000_0000) + FourBytesOf(v)
  }

  /** The forms the plugin's decoder knows. */
  predicate Readable(w: Width, f: Form) {
    f == Direct || f == One || f == Two || (f == Four && w == Wide)
  }

  lemma DecodeForm(w: Width, f: Form, major: Major, v: u64, rest: seq<byte>)
    requires Fits(f, v)
    ensures DecHead(w, EncForm(f, major, v) + rest)
            == if Readable(w, f) then Some(Head(|EncForm(f, major, v)|, major, v)) else None
  {
    hide Pair, Quad;
    var s := EncForm(f, major, v) + rest;
    match f
    case Direct => assert s[0] == major * 32 + v;
    case One => assert s[0] == major * 32 + 24 && s[1] == v;
    case Two =>
      TwoBytes(v);
      assert s[0] == major * 32 + 25 && s[1] == v / 256 % 256 && s[2] == v % 256;
    case Four =>
      FourBytes(v);
      assert s[0] == major * 32 + 26 && s[1..5] == FourBytesOf(v);
    case Eight => assert s[0] == major * 32 + 27;
  }

  /** The form put_head writes for a value, in range or not. */
  function Written(w: Width, v: u64): (f: Form)
    ensures Fits(f, v % Limit(w)) && Readable(w, f)
  {
    if v < 24 then Direct else if v < 0x100 then One else if w == Narrow || v < 0x1_0000 then Two else Four
  }

  /** put_head writes a well-formed head for the value modulo its range. */
  lemma EncodersWriteForms(w: Width, major: Major, v: u64)
    ensures EncHead(w, major, v) == EncForm(Written(w, v), major, v % Limit(w))
  {
    var r := v % Limit(w);
    if Written(w, v) == Two {
      TwoBytesOfRemainder(v, r);
    } else if Written(w, v) == Four {
      FourBytesOfRemainder(v, r);
      assert EncHead(w, major, v) == [major * 32 + 26] + FourBytesOf(v);
    } else {
      assert r == v;
    }
  }

  lemma QuadsDiffer(s: seq<byte>, t: seq<byte>)
    requires |s| == |t| == 4 && Quad(s[0], s[1], s[2], s[3]) == Quad(t[0], t[1], t[2], t[3])
    ensures s == t
  {
    hide Pair, Quad;
    QuadBytes(s[0], s[1], s[2], s[3]);
    QuadBytes(t[0], t[1], t[2], t[3]);
  }

  lemma QuadOf(v: u64)
    ensures Quad(FourBytesOf(v)[0], FourBytesOf(v)[1], FourBytesOf(v)[2], FourBytesOf(v)[3]) == v % 0x1_0000_0000
  {
    hide Pair, Quad;
    FourBytes(v);
  }

  lemma FourBytesOfRemainder(v: u64, r: u64)
    requires r < 0x1_0000_0000 && r == v % 0x1_0000_0000
    ensures FourBytesOf(r) == FourBytesOf(v)
  {
    hide Pair, Quad;
    QuadOf(v);
    QuadOf(r);
    WordRemainder(r, 0, r);
    QuadsDiffer(FourBytesOf(r), FourBytesOf(v));
  }

  lemma TwoBytesOfRemainder(v: u64, r: u64)
    requires r < 0x1_0000 && r == v % 0x1_0000
    ensures r / 256 % 256 == v / 256 % 256 && r % 256 == v % 256
  {
    var t, a := v / 0x1_0000, r / 256;
    assert v == 256 * (256 * t + a) + r % 256;
    assert v / 256 == 256 * t + a;
  }

  /** Values a one-level scan can step over: integers, simple values and floats, whose
      head is all of them, and byte and text strings. */
  datatype Value =
    | Plain(major: Major, form: Form, number: u64)
    | Str(text: bool, form: Form, data: seq<byte>)

  datatype Entry = Entry(keyForm: Form, key: seq<byte>, value: Value)

  datatype Map = Map(form: Form, entries: seq<Entry>)

  function MajorOf(v: Value): Major {
    match v
    case Plain(major, _, _) => major
    case Str(text, _, _) => if text then 3 else 2
  }

  predicate ValidStr(f: Form, s: seq<byte>) {
    |s| < 0x1_0000_0000_0000_0000 && Fits(f, |s|)
  }

  predicate ValidValue(v: Value) {
    match v
    case Plain(major, form, number) => (major == 0 || major == 1 || major == 7) && Fits(form, number)
    case Str(_, form, data) => ValidStr(form, data)
  }

  predicate ValidEntry(e: Entry) {
    ValidStr(e.keyForm, e.key) && ValidValue(e.value)
  }

  predicate ValidMap(m: Map) {
    && |m.entries| < 0x1_0000_0000_0000_0000 && Fits(m.form, |m.entries|)
    && forall i | 0 <= i < |m.entries| :: ValidEntry(m.entries[i])
  }

  function ValueHead(v: Value): seq<byte>
    requires ValidValue(v)
  {
    match v
    case Plain(major, form, number) => EncForm(form, major, number)
    case Str(_, form, data) => EncForm(form, MajorOf(v), |data|)
  }

  function Payload(v: Value): seq<byte> {
    if v.Str? then v.data else []
  }

  /** What get_head returns as the value of this value's head. */
  function Argument(v: Value): nat {
    if v.Str? then |v.data| else v.number
  }

  function KeyHead(e: Entry): seq<byte>
    requires ValidEntry(e)
  {
    EncForm(e.keyForm, 3, |e.key|)
  }

  function EncEntry(e: Entry): seq<byte>
    requires ValidEntry(e)
  {
    KeyHead(e) + (e.key + (ValueHead(e.value) + Payload(e.value)))
  }

  function EncEntries(es: seq<Entry>): (s: seq<byte>)
    requires forall i | 0 <= i < |es| :: ValidEntry(es[i])
  {
    if es == [] then [] else EncEntry(es[0]) + EncEntries(es[1..])
  }

  function EncMap(m: Map): (s: seq<byte>)
    requires ValidMap(m)
  {
    EncForm(m.form, 5, |m.entries|) + EncEntries(m.entries)
  }

  lemma Associate(a: seq<byte>, b: seq<byte>, c: seq<byte>)
    ensures a + (b + c) == (a + b) + c
  {
  }

  lemma {:induction false} EncEntriesSplit(es: seq<Entry>, i: nat)
    requires i <= |es| && forall j | 0 <= j < |es| :: ValidEntry(es[j])
    ensures EncEntries(es) == EncEntries(es[..i]) + EncEntries(es[i..])
    decreases i
  {
    hide EncEntry, ValidEntry;
    if i == 0 {
      assert es[i..] == es && es[..i] == [];
    } else {
      var rest := es[1..];
      EncEntriesSplit(rest, i - 1);
      assert rest[..i - 1] == es[..i][1..] && rest[i - 1..] == es[i..] && es[..i][0] == es[0];
      Associate(EncEntry(es[0]), EncEntries(rest[..i - 1]), EncEntries(es[i..]));
    }
  }

  predicate EntryReadable(w: Width, e: Entry) {
    Readable(w, e.keyForm) && Readable(w, e.value.form)
  }

  /** The lookup on the abstract map: the position of the first entry with this key and
      major type; a head the decoder does not know ends the search without a result. */
  function FirstMatch(w: Width, es: seq<Entry>, key: seq<byte>, want: Major): (i: Option<nat>)
    ensures i.Some? ==> i.value < |es|
  {
    if es == [] || !EntryReadable(w, es[0]) then None
    else if es[0].key == key && MajorOf(es[0].value) == want then Some(0)
    else
      var i := FirstMatch(w, es[1..], key, want);
      if i.Some? then Some(i.value + 1) else None
  }

  /** It is the first entry whose key is `key` byte for byte and whose value has this major
      type, among the entries that can be read one after the other. */
  lemma {:induction false} FirstMatchIsFirst(w: Width, es: seq<Entry>, key: seq<byte>, want: Major)
    ensures match FirstMatch(w, es, key, want)
            case Some(i) =>
              && es[i].key == key && MajorOf(es[i].value) == want
              && (forall j | 0 <= j <= i :: EntryReadable(w, es[j]))
              && (forall j | 0 <= j < i :: !(es[j].key == key && MajorOf(es[j].value) == want))
            case None =>
              forall i | 0 <= i < |es| && es[i].key == key && MajorOf(es[i].value) == want ::
                exists j :: 0 <= j <= i && !EntryReadable(w, es[j])
  {
    if es != [] {
      var r := FirstMatch(w, es[1..], key, want);
      FirstMatchIsFirst(w, es[1..], key, want);
      if EntryReadable(w, es[0]) && !(es[0].key == key && MajorOf(es[0].value) == want) {
        if r.None? {
          forall i | 0 <= i < |es| && es[i].key == key && MajorOf(es[i].value) == want
            ensures exists j :: 0 <= j <= i && !EntryReadable(w, es[j])
          {
            assert es[1..][i - 1] == es[i];
            var j :| 0 <= j <= i - 1 && !EntryReadable(w, es[1..][j]);
            assert es[j + 1] == es[1..][j];
          }
        } else {
          forall j | 0 <= j <= r.value + 1
            ensures EntryReadable(w, es[j])
            ensures j <= r.value ==> !(es[j].key == key && MajorOf(es[j].value) == want)
          {
            if j > 0 { assert es[j] == es[1..][j - 1]; }
          }
          assert es[r.value + 1] == es[1..][r.value];
        }
      }
    }
  }
}
