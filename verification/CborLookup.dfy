/** The plugins' map lookup: one scanning loop over the encoded bytes, proved against
    the abstract map. */
module CborLookup {
  import opened Sequences
  import opened Integers
  import opened CborHeads
  import opened CborMaps

  /** Where the value's payload starts, and the argument of the value's head. */
  datatype Hit = Hit(offset: nat, argument: nat)

  /** The length of the map head and the first `i` entries. */
  function Cursor(m: Map, i: nat): (p: nat)
    requires ValidMap(m) && i <= |m.entries|
  {
    |EncForm(m.form, 5, |m.entries|)| + |EncEntries(m.entries[..i])|
  }

  function KeyAt(m: Map, i: nat): nat
    requires ValidMap(m) && i < |m.entries|
  {
    Cursor(m, i) + |KeyHead(m.entries[i])|
  }

  function ValueAt(m: Map, i: nat): nat
    requires ValidMap(m) && i < |m.entries|
  {
    KeyAt(m, i) + |m.entries[i].key|
  }

  function HitAt(m: Map, i: nat): Hit
    requires ValidMap(m) && i < |m.entries|
  {
    var e := m.entries[i];
    Hit(ValueAt(m, i) + |ValueHead(e.value)|, Argument(e.value))
  }

  function Lookup(w: Width, m: Map, key: seq<byte>, want: Major): (h: Option<Hit>)
    requires ValidMap(m)
  {
    var i := FirstMatch(w, m.entries, key, want);
    if Readable(w, m.form) && i.Some? then Some(HitAt(m, i.value)) else None
  }

  /** A hit lies at the first readable entry whose key is `key` byte for byte and whose value
      has the wanted major type. */
  lemma LookupIsFirst(w: Width, m: Map, key: seq<byte>, want: Major)
    requires ValidMap(m)
    ensures match Lookup(w, m, key, want)
            case Some(h) =>
              && Readable(w, m.form)
              && exists i: nat :: i < |m.entries| && h == HitAt(m, i)
                   && m.entries[i].key == key && MajorOf(m.entries[i].value) == want
                   && (forall j | 0 <= j <= i :: EntryReadable(w, m.entries[j]))
                   && (forall j | 0 <= j < i && m.entries[j].key == key :: MajorOf(m.entries[j].value) != want)
            case None =>
              Readable(w, m.form) ==>
                forall i | 0 <= i < |m.entries| && m.entries[i].key == key && MajorOf(m.entries[i].value) == want ::
                  exists j :: 0 <= j <= i && !EntryReadable(w, m.entries[j])
  {
    FirstMatchIsFirst(w, m.entries, key, want);
  }

  lemma BehindPrefix(b: seq<byte>, a: seq<byte>, c: seq<byte>)
    requires a + c <= b
    ensures |a| <= |b| && c <= b[|a|..]
  {
    assert b == a + c + b[|a + c|..];
    assert b[|a|..] == c + b[|a + c|..];
  }

  /** The entries from `i` on start at the cursor. */
  lemma EntriesAtCursor(m: Map, i: nat, b: seq<byte>)
    requires ValidMap(m) && i <= |m.entries| && EncMap(m) <= b
    ensures Cursor(m, i) <= |b| && EncEntries(m.entries[i..]) <= b[Cursor(m, i)..]
  {
    hide DecHead, EncForm, EncEntries;
    EncEntriesSplit(m.entries, i);
    var head := EncForm(m.form, 5, |m.entries|);
    var first, rest := EncEntries(m.entries[..i]), EncEntries(m.entries[i..]);
    Associate(head, first, rest);
    BehindPrefix(b, head + first, rest);
  }

  lemma CursorStep(m: Map, i: nat)
    requires ValidMap(m) && i < |m.entries|
    ensures Cursor(m, i + 1) == Cursor(m, i) + |EncEntry(m.entries[i])|
  {
    EncEntriesSplit(m.entries[..i + 1], i);
    assert m.entries[..i + 1][..i] == m.entries[..i];
    assert m.entries[..i + 1][i..] == [m.entries[i]];
    assert [m.entries[i]][1..] == [];
  }

  lemma EntryAndRest(h: seq<byte>, k: seq<byte>, v: seq<byte>, d: seq<byte>, rest: seq<byte>)
    ensures (h + (k + (v + d))) + rest == h + (k + (v + (d + rest)))
  {
  }

  /** An entry's four parts, at their positions. */
  lemma PartsInPlace(b: seq<byte>, p: nat, h: seq<byte>, k: seq<byte>, v: seq<byte>, d: seq<byte>, rest: seq<byte>)
    requires p <= |b| && b[p..] == h + (k + (v + (d + rest)))
    ensures p + |h| + |k| + |v| + |d| <= |b|
    ensures b[p + |h|..p + |h| + |k|] == k
    ensures b[p + |h| + |k|..] == v + (d + rest)
    ensures b[p + |h| + |k| + |v|..p + |h| + |k| + |v| + |d|] == d
  {
    assert b[p + |h|..] == b[p..][|h|..] == k + (v + (d + rest));
    assert b[p + |h| + |k|..] == b[p + |h|..][|k|..] == v + (d + rest);
    assert b[p + |h| + |k| + |v|..] == b[p + |h| + |k|..][|v|..] == d + rest;
  }

  lemma EntryInBuffer(m: Map, i: nat, b: seq<byte>) returns (rest: seq<byte>)
    requires ValidMap(m) && i < |m.entries| && EncMap(m) <= b
    ensures Cursor(m, i) <= |b|
    ensures b[Cursor(m, i)..]
            == KeyHead(m.entries[i])
               + (m.entries[i].key + (ValueHead(m.entries[i].value) + (Payload(m.entries[i].value) + rest)))
  {
    hide DecHead, EncForm;
    EntriesAtCursor(m, i, b);
    var e := m.entries[i];
    assert m.entries[i..][0] == e;
    rest := b[Cursor(m, i)..][|EncEntry(e)|..];
    assert b[Cursor(m, i)..] == EncEntry(e) + rest;
    EntryAndRest(KeyHead(e), e.key, ValueHead(e.value), Payload(e.value), rest);
  }

  lemma EntryLength(m: Map, i: nat)
    requires ValidMap(m) && i < |m.entries|
    ensures Cursor(m, i) <= KeyAt(m, i) <= ValueAt(m, i) <= HitAt(m, i).offset
    ensures Cursor(m, i + 1) == HitAt(m, i).offset + |Payload(m.entries[i].value)|
    ensures |Payload(m.entries[i].value)|
            == var v := m.entries[i].value; if MajorOf(v) == 2 || MajorOf(v) == 3 then Argument(v) else 0
  {
    hide DecHead, EncForm;
    CursorStep(m, i);
    assert ValidEntry(m.entries[i]);
  }

  /** What the decoder finds at an entry that starts at `p`: the key head and the key, and
      behind them the value head and the payload. */
  lemma EntryFacts(w: Width, e: Entry, b: seq<byte>, p: nat, rest: seq<byte>)
    requires ValidEntry(e) && p <= |b|
    requires b[p..] == KeyHead(e) + (e.key + (ValueHead(e.value) + (Payload(e.value) + rest)))
    ensures var k := p + |KeyHead(e)|;
            var v := k + |e.key|;
            var d := v + |ValueHead(e.value)|;
            && d + |Payload(e.value)| <= |b|
            && DecHead(w, b[p..])
               == (if Readable(w, e.keyForm) then Some(Head(|KeyHead(e)|, 3, |e.key|)) else None)
            && b[k..v] == e.key
            && DecHead(w, b[v..])
               == (if Readable(w, e.value.form)
                   then Some(Head(|ValueHead(e.value)|, MajorOf(e.value), Argument(e.value))) else None)
            && b[d..d + |Payload(e.value)|] == Payload(e.value)
  {
    hide DecHead, EncForm;
    var v, d := ValueHead(e.value), Payload(e.value);
    PartsInPlace(b, p, KeyHead(e), e.key, v, d, rest);
    DecodeForm(w, e.keyForm, 3, |e.key|, e.key + (v + (d + rest)));
    DecodeForm(w, e.value.form, MajorOf(e.value), Argument(e.value), d + rest);
  }

  lemma KeyInPlace(w: Width, m: Map, i: nat, b: seq<byte>)
    requires ValidMap(m) && i < |m.entries| && EncMap(m) <= b
    ensures Cursor(m, i) <= KeyAt(m, i) <= ValueAt(m, i) <= |b|
    ensures DecHead(w, b[Cursor(m, i)..])
            == if Readable(w, m.entries[i].keyForm)
               then Some(Head(KeyAt(m, i) - Cursor(m, i), 3, |m.entries[i].key|)) else None
    ensures b[KeyAt(m, i)..ValueAt(m, i)] == m.entries[i].key
  {
    hide DecHead, EncForm;
    var rest := EntryInBuffer(m, i, b);
    EntryFacts(w, m.entries[i], b, Cursor(m, i), rest);
  }

  lemma ValueInPlace(w: Width, m: Map, i: nat, b: seq<byte>)
    requires ValidMap(m) && i < |m.entries| && EncMap(m) <= b
    ensures ValueAt(m, i) <= HitAt(m, i).offset <= Cursor(m, i + 1) <= |b|
    ensures DecHead(w, b[ValueAt(m, i)..])
            == if Readable(w, m.entries[i].value.form)
               then Some(Head(HitAt(m, i).offset - ValueAt(m, i), MajorOf(m.entries[i].value),
                              Argument(m.entries[i].value))) else None
    ensures b[HitAt(m, i).offset..Cursor(m, i + 1)] == Payload(m.entries[i].value)
  {
    hide DecHead, EncForm;
    var rest := EntryInBuffer(m, i, b);
    EntryLength(m, i);
    EntryFacts(w, m.entries[i], b, Cursor(m, i), rest);
  }

  /** The buffer holds this map, or something the lookups refuse at its first head. */
  ghost predicate Holds(w: Width, b: seq<byte>, m: Option<Map>) {
    match m
    case Some(mm) => ValidMap(mm) && EncMap(mm) <= b
    case None => DecHead(w, b).None? || DecHead(w, b).value.major != 5
  }

  /** What one turn of the loop does at an entry whose payload starts at `d`. */
  datatype Turn = Stop | Found(hit: Hit) | Next(p: nat)

  function TurnAt(w: Width, e: Entry, d: nat, key: seq<byte>, want: Major): Turn {
    if !EntryReadable(w, e) then Stop
    else if e.key == key && MajorOf(e.value) == want then Found(Hit(d, Argument(e.value)))
    else Next(d + if MajorOf(e.value) == 2 || MajorOf(e.value) == 3 then Argument(e.value) else 0)
  }

  method ScanEntry(w: Width, b: array<byte>, p: nat, key: seq<byte>, want: Major,
                   ghost e: Entry, ghost k0: nat, ghost v0: nat, ghost d0: nat)
    returns (turn: Turn)
    requires ValidEntry(e) && p <= k0 <= v0 <= d0 <= b.Length && v0 == k0 + |e.key| && b[k0..v0] == e.key
    requires DecHead(w, b[p..])
             == if Readable(w, e.keyForm) then Some(Head(k0 - p, 3, |e.key|)) else None
    requires DecHead(w, b[v0..])
             == if Readable(w, e.value.form)
                then Some(Head(d0 - v0, MajorOf(e.value), Argument(e.value))) else None
    ensures turn.Stop? <==> !Readable(w, e.keyForm) || !Readable(w, e.value.form)
    ensures turn.Found? <==> !turn.Stop? && e.key == key && MajorOf(e.value) == want
    ensures turn.Found? ==> turn.hit == Hit(d0, if e.value.Str? then |e.value.data| else e.value.number)
    ensures turn.Next? ==> turn.p == d0 + if e.value.Str? then |e.value.data| else 0
    ensures turn == TurnAt(w, e, d0, key, want)
  {
    hide DecHead, EncForm;
    var kh := GetHead(w, b, p);
    if kh.None? || kh.value.major != 3 {
      return Stop;
    }
    var k := p + kh.value.size;
    var kl := kh.value.value;
    var v := k + kl;
    var vh := GetHead(w, b, v);
    if vh.None? {
      return Stop;
    }
    if kl == |key| && b[k..k + kl] == key && vh.value.major == want {
      return Found(Hit(v + vh.value.size, vh.value.value));
    }
    turn := Next(v + vh.value.size + if vh.value.major == 2 || vh.value.major == 3 then vh.value.value else 0);
  }

  /** The first match lies at `i` or behind it. */
  ghost predicate Reached(w: Width, es: seq<Entry>, i: nat, key: seq<byte>, want: Major)
    requires i <= |es|
  {
    FirstMatch(w, es, key, want) == Shifted(FirstMatch(w, es[i..], key, want), i)
  }

  lemma ReachedTurn(w: Width, m: Map, i: nat, key: seq<byte>, want: Major)
    requires ValidMap(m) && i < |m.entries| && Reached(w, m.entries, i, key, want)
    ensures match TurnAt(w, m.entries[i], HitAt(m, i).offset, key, want)
            case Stop => FirstMatch(w, m.entries, key, want) == None
            case Found(h) => FirstMatch(w, m.entries, key, want) == Some(i) && h == HitAt(m, i)
            case Next(p) => Reached(w, m.entries, i + 1, key, want) && p == Cursor(m, i + 1)
  {
    hide DecHead, EncForm;
    EntryLength(m, i);
    assert m.entries[i..][0] == m.entries[i] && m.entries[i..][1..] == m.entries[i + 1..];
  }

  /** find_text, find_uint and find_val share this loop. `m` is the map the request
      encodes, None when its first head is unreadable or not a map; whatever follows
      the map is ignored. */
  method Find(w: Width, b: array<byte>, key: seq<byte>, want: Major, ghost m: Option<Map>)
    returns (hit: Option<Hit>)
    requires Holds(w, b[..], m)
    ensures hit == if m.Some? then Lookup(w, m.value, key, want) else None
  {
    hide DecHead, EncForm;
    var top := GetHead(w, b, 0);
    assert b[0..] == b[..];
    if m.Some? {
      TopHead(w, m.value, b[..]);
    }
    if top.None? || top.value.major != 5 {
      return None;
    }
    var cnt := top.value.value;
    var p := top.value.size;
    var i := 0;
    assert m.value.entries[0..] == m.value.entries;
    while i < cnt
      invariant i <= cnt == |m.value.entries| && p == Cursor(m.value, i) <= b.Length
      invariant Reached(w, m.value.entries, i, key, want)
    {
      ReachedTurn(w, m.value, i, key, want);
      KeyInPlace(w, m.value, i, b[..]);
      ValueInPlace(w, m.value, i, b[..]);
      ghost var k0, v0, d0 := KeyAt(m.value, i), ValueAt(m.value, i), HitAt(m.value, i).offset;
      assert b[..][p..] == b[p..] && b[..][v0..] == b[v0..] && b[..][k0..v0] == b[k0..v0];
      var turn := ScanEntry(w, b, p, key, want, m.value.entries[i], k0, v0, d0);
      match turn
      case Stop => return None;
      case Found(h) => return Some(h);
      case Next(next) => p := next;
      i := i + 1;
    }
    hit := None;
  }

  function Shifted(r: Option<nat>, i: nat): Option<nat> {
    if r.Some? then Some(r.value + i) else None
  }

  lemma TopHead(w: Width, m: Map, b: seq<byte>)
    requires ValidMap(m) && EncMap(m) <= b
    ensures DecHead(w, b)
            == if Readable(w, m.form) then Some(Head(Cursor(m, 0), 5, |m.entries|)) else None
    ensures Cursor(m, 0) <= |b|
  {
    var head := EncForm(m.form, 5, |m.entries|);
    assert head <= EncMap(m);
    assert b == head + b[|head|..];
    DecodeForm(w, m.form, 5, |m.entries|, b[|head|..]);
    assert m.entries[..0] == [];
  }

  /** A string hit points at the string. */
  lemma HitPayload(w: Width, m: Map, key: seq<byte>, want: Major, b: seq<byte>)
    requires ValidMap(m) && EncMap(m) <= b && (want == 2 || want == 3)
    requires Lookup(w, m, key, want).Some?
    ensures var h := Lookup(w, m, key, want).value;
            var i := FirstMatch(w, m.entries, key, want).value;
            && h.offset + h.argument <= |b|
            && m.entries[i].value.Str? && b[h.offset..h.offset + h.argument] == m.entries[i].value.data
  {
    hide DecHead, EncForm;
    var i := FirstMatch(w, m.entries, key, want).value;
    FirstMatchIsFirst(w, m.entries, key, want);
    assert ValidEntry(m.entries[i]);
    ValueInPlace(w, m, i, b);
    EntryLength(m, i);
  }

  /** The string under `key` on the abstract map. */
  function StringOf(w: Width, m: Option<Map>, key: seq<byte>, text: bool): (s: Option<seq<byte>>) {
    if m.None? || !Readable(w, m.value.form) then None
    else
      var i := FirstMatch(w, m.value.entries, key, if text then 3 else 2);
      if i.Some? && m.value.entries[i.value].value.Str?
      then Some(m.value.entries[i.value].value.data) else None
  }

  function NumberOf(w: Width, m: Option<Map>, key: seq<byte>): (v: Option<nat>) {
    if m.None? || !Readable(w, m.value.form) then None
    else
      var i := FirstMatch(w, m.value.entries, key, 0);
      if i.Some? then Some(Argument(m.value.entries[i.value].value)) else None
  }

  /** It is the data of the first entry whose key is `key` byte for byte and whose value is a
      string of this type, if everything up to that entry can be read; and there is none only
      if no entry is of that kind or an unreadable one comes before, or at, each that is. */
  lemma StringIsFirst(w: Width, m: Option<Map>, key: seq<byte>, text: bool)
    requires m.Some? ==> ValidMap(m.value)
    ensures match StringOf(w, m, key, text)
            case Some(s) =>
              && m.Some? && Readable(w, m.value.form)
              && var es := m.value.entries;
              exists i: nat :: i < |es| && es[i].key == key && es[i].value == Str(text, es[i].value.form, s)
                               && (forall j | 0 <= j <= i :: EntryReadable(w, es[j]))
                               && (forall j | 0 <= j < i && es[j].key == key && es[j].value.Str? ::
                                     es[j].value.text != text)
            case None =>
              m.Some? && Readable(w, m.value.form) ==>
                var es := m.value.entries;
                forall i | 0 <= i < |es| && es[i].key == key && es[i].value.Str? && es[i].value.text == text ::
                  exists j :: 0 <= j <= i && !EntryReadable(w, es[j])
  {
    if m.Some? && Readable(w, m.value.form) {
      var es, want := m.value.entries, if text then 3 else 2;
      FirstMatchIsFirst(w, es, key, want);
      hide FirstMatch, Readable, Fits;
      assert forall i | 0 <= i < |es| :: ValidEntry(es[i]);
      assert forall i | 0 <= i < |es| :: MajorOf(es[i].value) == want <==> es[i].value.Str? && es[i].value.text == text;
    }
  }

  /** The same for unsigned integers. */
  lemma NumberIsFirst(w: Width, m: Option<Map>, key: seq<byte>)
    requires m.Some? ==> ValidMap(m.value)
    ensures match NumberOf(w, m, key)
            case Some(v) =>
              && m.Some? && Readable(w, m.value.form)
              && var es := m.value.entries;
              exists i: nat :: i < |es| && es[i].key == key && es[i].value == Plain(0, es[i].value.form, v)
                               && (forall j | 0 <= j <= i :: EntryReadable(w, es[j]))
                               && (forall j | 0 <= j < i && es[j].key == key && es[j].value.Plain? ::
                                     es[j].value.major != 0)
            case None =>
              m.Some? && Readable(w, m.value.form) ==>
                var es := m.value.entries;
                forall i | 0 <= i < |es| && es[i].key == key && es[i].value.Plain? && es[i].value.major == 0 ::
                  exists j :: 0 <= j <= i && !EntryReadable(w, es[j])
  {
    if m.Some? && Readable(w, m.value.form) {
      var es := m.value.entries;
      FirstMatchIsFirst(w, es, key, 0);
      hide FirstMatch, Readable, Fits;
      assert forall i | 0 <= i < |es| :: MajorOf(es[i].value) == 0 <==> es[i].value.Plain? && es[i].value.major == 0;
    }
  }

  method FindString(w: Width, b: array<byte>, key: seq<byte>, text: bool, ghost m: Option<Map>)
    returns (s: Option<seq<byte>>)
    requires Holds(w, b[..], m)
    ensures s == StringOf(w, m, key, text)
  {
    hide DecHead, EncForm;
    var hit := Find(w, b, key, if text then 3 else 2, m);
    if hit.None? {
      return None;
    }
    HitPayload(w, m.value, key, if text then 3 else 2, b[..]);
    s := Some(b[hit.value.offset..hit.value.offset + hit.value.argument]);
  }

  method FindUint(w: Width, b: array<byte>, key: seq<byte>, ghost m: Option<Map>)
    returns (v: Option<nat>)
    requires Holds(w, b[..], m)
    ensures v == NumberOf(w, m, key)
  {
    hide DecHead, EncForm;
    var hit := Find(w, b, key, 0, m);
    v := if hit.Some? then Some(hit.value.argument) else None;
  }
}
