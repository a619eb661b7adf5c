/** UTF-8 and UTF-16: counting and converting zero-terminated text. */
module Unicode {

  type Byte = b: int | 0 <= b < 0x100
  type Unit = u: int | 0 <= u < 0x10000

  const HALF_BASE := 0x10000
  const HIGH_START := 0xD800
  const HIGH_END := 0xDBFF
  const LOW_START := 0xDC00
  const LOW_END := 0xDFFF

  predicate High(u: Unit) {
    HIGH_START <= u <= HIGH_END
  }

  predicate Low(u: Unit) {
    LOW_START <= u <= LOW_END
  }

  // ----- Encoding

  /** The code point of two units, the first of which is a high surrogate. */
  function PairValue(hi: Unit, lo: Unit): int {
    HALF_BASE + (hi - HIGH_START) * 1024 + (lo - LOW_START)
  }

  function EncodePoint(v: int): seq<Byte>
    requires 0 <= v < 0x200000
  {
    [0xF0 + v / 0x40000, 0x80 + v / 0x1000 % 0x40, 0x80 + v / 0x40 % 0x40, 0x80 + v % 0x40]
  }

  /** The bytes for one unit that starts no pair. */
  function EncodeUnit(u: Unit): seq<Byte> {
    if u < 0x80 then [u]
    else if u < 0x800 then [0xC0 + u / 0x40, 0x80 + u % 0x40]
    else [0xE0 + u / 0x1000, 0x80 + u / 0x40 % 0x40, 0x80 + u % 0x40]
  }

  /** Text without terminators whose last unit does not ask for another one. */
  predicate Whole(text: seq<Unit>) {
    text == [] || (text[0] != 0 && if High(text[0]) then |text| > 1 && text[1] != 0 && Whole(text[2..]) else Whole(text[1..]))
  }

  /** How many units belong together at the start of the text. */
  function FirstLength(text: seq<Unit>): (n: nat)
    requires Whole(text) && text != []
    ensures 1 <= n <= |text| && Whole(text[n..])
  {
    if High(text[0]) then 2 else 1
  }

  function FirstBytes(text: seq<Unit>): seq<Byte>
    requires Whole(text) && text != []
  {
    if High(text[0]) then EncodePoint(PairValue(text[0], text[1])) else EncodeUnit(text[0])
  }

  function Encoded(text: seq<Unit>): seq<Byte>
    requires Whole(text)
    decreases |text|
  {
    if text == [] then [] else FirstBytes(text) + Encoded(text[FirstLength(text)..])
  }

  /** What a conversion writes and how far it reads; it is complete unless room ran out. */
  datatype Conversion<T> = Conversion(written: seq<T>, read: nat, complete: bool)

  /** ConvertToUTF8 up to a number of characters.  Pairs do not count against the limit. */
  function ToUTF8(text: seq<Unit>, chars: int, size: int, move: bool): Conversion<Byte>
    requires Whole(text)
    decreases |text|
  {
    if chars <= 0 then Conversion([], 0, true)
    else if text == [] then Conversion([], 1, true)
    else
      var n, bytes := FirstLength(text), FirstBytes(text);
      if !move && size < |bytes| then Conversion([], n, false)
      else
        var rest := ToUTF8(text[n..], if n == 1 then chars - 1 else chars, if move then size else size - |bytes|, move);
        Conversion(bytes + rest.written, n + rest.read, rest.complete)
  }

  // ----- Decoding

  /** The memory that holds the UTF-8 text. */
  type Memory = nat -> Byte

  datatype Lead = Illegal(next: nat) | Character(units: seq<Unit>, length: nat)

  function Two(m: Memory, p: nat): Unit {
    m(p) % 0x20 * 0x40 + m(p + 1) % 0x40
  }

  function Three(m: Memory, p: nat): Unit {
    (m(p) % 0x10 * 0x40 + m(p + 1) % 0x40) * 0x40 + m(p + 2) % 0x40
  }

  function Four(m: Memory, p: nat): (v: int)
    ensures 0 <= v < 0x200000
  {
    ((m(p) % 8 * 0x40 + m(p + 1) % 0x40) * 0x40 + m(p + 2) % 0x40) * 0x40 + m(p + 3) % 0x40
  }

  /** The character at `p`, if it is a legal one of at most so many bytes. */
  function DecodeAt(m: Memory, p: nat, bytes: int): Lead {
    var ch := m(p);
    if ch == 0 then Illegal(p)
    else if ch < 0x80 then Character([ch], 1)
    else if ch < 0xC0 then Illegal(p + 1)
    else if ch < 0xE0 then if ch < 0xC2 || bytes < 2 then Illegal(p) else Character([Two(m, p)], 2)
    else if ch < 0xF0 then if bytes < 3 then Illegal(p) else Character([Three(m, p)], 3)
    else if ch >= 0xF5 || bytes < 4 then Illegal(p)
    else Character([Four(m, p) / 1024 + HIGH_START, Four(m, p) % 1024 + LOW_START], 4)
  }

  /** ConvertFromUTF8 from `p` on; `read` is the position where it stops. */
  function FromUTF8(m: Memory, p: nat, chars: int, bytes: int, size: int, move: bool): Conversion<Unit>
    decreases bytes
  {
    if chars <= 0 || bytes <= 0 then Conversion([], p, true)
    else
      match DecodeAt(m, p, bytes)
      case Illegal(next) => Conversion([], next, false)
      case Character(units, length) =>
        if !move && size < |units| then Conversion([], p, false)
        else
          var rest := FromUTF8(m, p + length, chars - |units|, bytes - length, if move then size else size - |units|, move);
          rest.(written := units + rest.written)
  }

  predicate HoldsAt(m: Memory, p: nat, bytes: seq<Byte>) {
    forall i :: 0 <= i < |bytes| ==> m(p + i) == bytes[i]
  }

  // ----- Round trips

  lemma Digits(v: int)
    requires 0 <= v < 0x200000
    ensures ((v / 0x40000 * 0x40 + v / 0x1000 % 0x40) * 0x40 + v / 0x40 % 0x40) * 0x40 + v % 0x40 == v
  {
  }

  lemma LowPart(b: Byte, d: int)
    requires 0 <= d < 0x40 && b == 0x80 + d
    ensures b % 0x40 == d
  {
  }

  lemma UnitComesBack(m: Memory, p: nat, u: Unit, bytes: int)
    requires u != 0 && HoldsAt(m, p, EncodeUnit(u)) && |EncodeUnit(u)| <= bytes
    ensures DecodeAt(m, p, bytes) == Character([u], |EncodeUnit(u)|)
  {
    var e := EncodeUnit(u);
    assert m(p + 0) == e[0];
    if u >= 0x800 {
      assert m(p + 1) == e[1] && m(p + 2) == e[2];
      LowPart(m(p + 1), u / 0x40 % 0x40);
      LowPart(m(p + 2), u % 0x40);
      assert m(p) % 0x10 == u / 0x1000;
      assert (u / 0x1000 * 0x40 + u / 0x40 % 0x40) * 0x40 + u % 0x40 == u;
    } else if u >= 0x80 {
      assert m(p + 1) == e[1];
      LowPart(m(p + 1), u % 0x40);
      assert m(p) % 0x20 == u / 0x40;
    }
  }

  /** What decoding makes of an encoded pair: the encoder adds the base that the decoder does not
    * take away. */
  function MovedPair(hi: Unit, lo: Unit): seq<Unit>
    requires High(hi)
  {
    var v := PairValue(hi, lo);
    [v / 1024 + HIGH_START, v % 1024 + LOW_START]
  }

  lemma PointComesBack(m: Memory, p: nat, v: int)
    requires 0 <= v < 0x140000 && HoldsAt(m, p, EncodePoint(v))
    ensures m(p) == 0xF0 + v / 0x40000 < 0xF5 && Four(m, p) == v
  {
    var e := EncodePoint(v);
    assert m(p + 0) == e[0] && m(p + 1) == e[1] && m(p + 2) == e[2] && m(p + 3) == e[3];
    LowPart(m(p + 1), v / 0x1000 % 0x40);
    LowPart(m(p + 2), v / 0x40 % 0x40);
    LowPart(m(p + 3), v % 0x40);
    assert m(p) % 8 == v / 0x40000;
    Digits(v);
  }

  lemma PairComesBackMoved(m: Memory, p: nat, hi: Unit, lo: Unit, bytes: int)
    requires High(hi) && HoldsAt(m, p, EncodePoint(PairValue(hi, lo))) && 4 <= bytes
    ensures DecodeAt(m, p, bytes) == Character(MovedPair(hi, lo), 4)
  {
    PointComesBack(m, p, PairValue(hi, lo));
  }

  lemma PairMoves(hi: Unit, lo: Unit)
    requires High(hi)
    ensures MovedPair(hi, lo) != [hi, lo]
    ensures Low(lo) ==> MovedPair(hi, lo) == [hi + 0x40, lo]
  {
    var v := PairValue(hi, lo);
    assert v == v / 1024 * 1024 + v % 1024;
  }

  /** The text that decoding makes of the encoded text. */
  function Moved(text: seq<Unit>): seq<Unit>
    requires Whole(text)
    decreases |text|
  {
    if text == [] then []
    else (if High(text[0]) then MovedPair(text[0], text[1]) else [text[0]]) + Moved(text[FirstLength(text)..])
  }

  lemma {:induction false} MovedLength(text: seq<Unit>)
    requires Whole(text)
    ensures |Moved(text)| == |text|
    decreases |text|
  {
    if text != [] {
      MovedLength(text[FirstLength(text)..]);
    }
  }

  /** Text is its own image exactly if it holds no high surrogate. */
  lemma {:induction false} MovedIsSame(text: seq<Unit>)
    requires Whole(text)
    ensures Moved(text) == text <==> forall u :: u in text ==> !High(u)
    decreases |text|
  {
    if text != [] {
      var n := FirstLength(text);
      var rest := text[n..];
      MovedIsSame(rest);
      MovedLength(rest);
      assert text == text[..n] + rest;
      if High(text[0]) {
        PairMoves(text[0], text[1]);
        assert Moved(text)[..2] == MovedPair(text[0], text[1]);
        assert text[..2] == [text[0], text[1]];
        assert text[0] in text;
      } else {
        assert Moved(text)[1..] == Moved(rest);
        assert forall u :: u in text <==> u == text[0] || u in rest;
      }
    }
  }

  lemma HoldsParts(m: Memory, p: nat, a: seq<Byte>, b: seq<Byte>)
    requires HoldsAt(m, p, a + b)
    ensures HoldsAt(m, p, a) && HoldsAt(m, p + |a|, b)
  {
    forall i | 0 <= i < |a| ensures m(p + i) == a[i] {
      assert (a + b)[i] == a[i];
    }
    forall i | 0 <= i < |b| ensures m(p + |a| + i) == b[i] {
      assert m(p + (|a| + i)) == (a + b)[|a| + i];
    }
  }

  lemma FirstComesBack(m: Memory, p: nat, text: seq<Unit>, bytes: int)
    requires Whole(text) && text != [] && HoldsAt(m, p, FirstBytes(text)) && |FirstBytes(text)| <= bytes
    ensures DecodeAt(m, p, bytes)
      == Character(if High(text[0]) then MovedPair(text[0], text[1]) else [text[0]], |FirstBytes(text)|)
    ensures 0 < |FirstBytes(text)| && (High(text[0]) ==> |MovedPair(text[0], text[1])| == 2)
  {
    if High(text[0]) {
      PairComesBackMoved(m, p, text[0], text[1], bytes);
    } else {
      UnitComesBack(m, p, text[0], bytes);
    }
  }

  /** Decoding encoded text reads exactly its bytes and never misses. */
  lemma {:induction false} DecodeEncoded(m: Memory, p: nat, text: seq<Unit>, bytes: int, size: int, move: bool)
    requires Whole(text) && HoldsAt(m, p, Encoded(text)) && |Encoded(text)| <= bytes && (move || |text| <= size)
    ensures FromUTF8(m, p, |text|, bytes, size, move) == Conversion(Moved(text), p + |Encoded(text)|, true)
    decreases |text|
  {
    hide FirstBytes, FirstLength, Encoded, Moved, DecodeAt, FromUTF8, HoldsAt, Whole, MovedPair;
    if text == [] {
      NothingConverted(m, p, bytes, size, move);
    } else {
      var n, first := FirstLength(text), FirstBytes(text);
      UnfoldText(text);
      HoldsParts(m, p, first, Encoded(text[n..]));
      FirstComesBack(m, p, text, bytes);
      FromMove(m, p, |text|, bytes, size, move);
      DecodeEncoded(m, p + |first|, text[n..], bytes - |first|, if move then size else size - n, move);
    }
  }

  lemma NothingConverted(m: Memory, p: nat, bytes: int, size: int, move: bool)
    ensures Whole([]) && Encoded([]) == [] && Moved([]) == []
    ensures FromUTF8(m, p, 0, bytes, size, move) == Conversion([], p, true)
  {
  }

  lemma UnfoldText(text: seq<Unit>)
    requires Whole(text) && text != []
    ensures var n := FirstLength(text);
      && n == (if High(text[0]) then 2 else 1) <= |text| && Whole(text[n..])
      && Encoded(text) == FirstBytes(text) + Encoded(text[n..])
      && Moved(text) == (if High(text[0]) then MovedPair(text[0], text[1]) else [text[0]]) + Moved(text[n..])
  {
  }

  lemma FromMove(m: Memory, p: nat, chars: int, bytes: int, size: int, move: bool)
    requires chars > 0 && bytes > 0
    requires var lead := DecodeAt(m, p, bytes); lead.Character? && (move || |lead.units| <= size)
    ensures var lead := DecodeAt(m, p, bytes);
      var rest := FromUTF8(m, p + lead.length, chars - |lead.units|, bytes - lead.length, if move then size else size - |lead.units|, move);
      FromUTF8(m, p, chars, bytes, size, move) == rest.(written := lead.units + rest.written)
  {
    hide DecodeAt;
  }

  lemma {:induction false} EncodedShort(text: seq<Unit>)
    requires Whole(text)
    ensures |text| <= |Encoded(text)| <= 3 * |text|
    decreases |text|
  {
    if text != [] {
      EncodedShort(text[FirstLength(text)..]);
    }
  }

  /** Encoding and decoding gives the text back exactly if it holds no high surrogate, also when the
    * byte limit is the converter's own guess. */
  lemma RoundTrip(m: Memory, p: nat, text: seq<Unit>, size: int, move: bool)
    requires Whole(text) && HoldsAt(m, p, Encoded(text)) && (move || |text| <= size)
    ensures var back := FromUTF8(m, p, |text|, 3 * |text|, size, move);
      && back.complete && back.read == p + |Encoded(text)| && |back.written| == |text|
      && (back.written == text <==> forall u :: u in text ==> !High(u))
  {
    EncodedShort(text);
    DecodeEncoded(m, p, text, 3 * |text|, size, move);
    MovedLength(text);
    MovedIsSame(text);
  }

  /** With room and a high enough limit the whole text is encoded. */
  lemma {:induction false} EncodesAll(text: seq<Unit>, chars: int, size: int, move: bool)
    requires Whole(text) && |text| <= chars && (move || |Encoded(text)| <= size)
    ensures var c := ToUTF8(text, chars, size, move); c.written == Encoded(text) && c.complete
    decreases |text|
  {
    if text != [] {
      var n := FirstLength(text);
      EncodesAll(text[n..], if n == 1 then chars - 1 else chars, if move then size else size - |FirstBytes(text)|, move);
    }
  }

  /** Neither converter produces more than fits. */
  lemma {:induction false} EncodingFits(text: seq<Unit>, chars: int, size: int)
    requires Whole(text) && 0 <= size
    ensures |ToUTF8(text, chars, size, false).written| <= size
    decreases |text|
  {
    if text != [] && chars > 0 && size >= |FirstBytes(text)| {
      var n := FirstLength(text);
      EncodingFits(text[n..], if n == 1 then chars - 1 else chars, size - |FirstBytes(text)|);
    }
  }

  lemma {:induction false} DecodingFits(m: Memory, p: nat, chars: int, bytes: int, size: int)
    requires 0 <= size
    ensures |FromUTF8(m, p, chars, bytes, size, false).written| <= size
    decreases bytes
  {
    hide Two, Three, Four;
    if chars > 0 && bytes > 0 {
      var lead := DecodeAt(m, p, bytes);
      if lead.Character? && size >= |lead.units| {
        DecodingFits(m, p + lead.length, chars - |lead.units|, bytes - lead.length, size - |lead.units|);
      }
    }
  }

  // ----- Counting

  /** CountNumberOfBytes: -1 for a surrogate without its partner. */
  function CountBytes(text: seq<Unit>, max: int): (n: int)
    ensures n >= -1
    decreases |text|
  {
    if text == [] || text[0] == 0 || max == 0 then 0
    else
      var ch := text[0];
      if Low(ch) || (High(ch) && (|text| == 1 || !Low(text[1]))) then -1
      else
        var length := if High(ch) then 2 else 1;
        var rest := CountBytes(text[length..], max - 1);
        if rest < 0 then -1
        else rest + if High(ch) then 4 else if ch < 0x80 then 1 else if ch < 0x800 then 2 else 3
  }

  /** Every surrogate has its partner. */
  predicate Paired(text: seq<Unit>)
    decreases |text|
  {
    text == [] ||
    if High(text[0]) then |text| > 1 && Low(text[1]) && Paired(text[2..]) else !Low(text[0]) && Paired(text[1..])
  }

  /** Without a limit the count is the number of bytes of the encoded text. */
  lemma {:induction false} CountIsLength(text: seq<Unit>, max: int)
    requires (forall u :: u in text ==> u != 0) && max < 0
    ensures Paired(text) ==> Whole(text) && CountBytes(text, max) == |Encoded(text)|
    ensures !Paired(text) ==> CountBytes(text, max) == -1
    decreases |text|
  {
    if text != [] {
      assert text[0] in text;
      if High(text[0]) && |text| > 1 {
        assert text[1] in text;
        assert forall u :: u in text[2..] ==> u in text;
        CountIsLength(text[2..], max - 1);
      } else if !High(text[0]) {
        assert forall u :: u in text[1..] ==> u in text;
        CountIsLength(text[1..], max - 1);
      }
    }
  }

  /** With a limit it is the number of bytes that the converter produces under that limit, as long as
    * there are no surrogates. */
  lemma {:induction false} LimitedCount(text: seq<Unit>, max: nat, size: int, move: bool)
    requires forall u :: u in text ==> u != 0 && !High(u) && !Low(u)
    requires move || CountBytes(text, max) <= size
    ensures Whole(text) && CountBytes(text, max) == |ToUTF8(text, max, size, move).written|
    ensures ToUTF8(text, max, size, move).complete
    decreases |text|
  {
    PlainCounts(text, max);
    if text != [] && max > 0 {
      assert text[0] in text;
      assert forall u :: u in text[1..] ==> u in text;
      PlainCounts(text[1..], max - 1);
      LimitedCount(text[1..], max - 1, if move then size else size - |EncodeUnit(text[0])|, move);
    }
  }

  lemma {:induction false} PlainCounts(text: seq<Unit>, max: nat)
    requires forall u :: u in text ==> u != 0 && !High(u) && !Low(u)
    ensures Whole(text) && CountBytes(text, max) >= 0
    decreases |text|
  {
    if text != [] {
      assert text[0] in text;
      assert forall u :: u in text[1..] ==> u in text;
      PlainCounts(text[1..], if max == 0 then 0 else max - 1);
    }
  }

  predicate Continuation(b: Byte) {
    0x80 <= b <= 0xBF
  }

  /** The length and the units of the character at `p` as CountNumberOfCharacters sees it. */
  function CountedAt(m: Memory, p: nat): (r: (nat, nat)) {
    var ch := m(p);
    if ch < 0x80 then (1, 1)
    else if ch < 0xC0 then (0, 0)
    else if ch < 0xE0 then if Continuation(m(p + 1)) then (2, 1) else (0, 0)
    else if ch < 0xF0 then if Continuation(m(p + 1)) && Continuation(m(p + 2)) then (3, 1) else (0, 0)
    else if Continuation(m(p + 1)) && Continuation(m(p + 2)) && Continuation(m(p + 3)) then (4, 2) else (0, 0)
  }

  /** CountNumberOfCharacters: -1 if bytes are missing or out of place. */
  function CountCharacters(m: Memory, p: nat, end: nat, max: int): (n: int)
    requires p <= end && m(end) == 0
    ensures n >= -1
    decreases end - p
  {
    if m(p) == 0 || max == 0 then 0
    else
      var (length, units) := CountedAt(m, p);
      if length == 0 then -1
      else
        assert p + length <= end;
        var rest := CountCharacters(m, p + length, end, max - 1);
        if rest < 0 then -1 else units + rest
  }

  /** No character has one of the lead bytes that the converter refuses. */
  predicate LegalLeads(m: Memory, p: nat, end: nat)
    decreases end - p
  {
    p >= end || m(p) == 0 ||
    (m(p) != 0xC0 && m(p) != 0xC1 && m(p) < 0xF5
     && var length := CountedAt(m, p).0; (length == 0 || LegalLeads(m, p + length, end)))
  }

  /** Text that counts is converted in full exactly if its lead bytes are legal, and then to as many
    * units as were counted. */
  lemma {:induction false} CountIsConverted(m: Memory, p: nat, end: nat, size: int)
    requires p <= end && m(end) == 0 && (forall i :: p <= i < end ==> m(i) != 0)
    requires 0 <= CountCharacters(m, p, end, -1) <= size
    ensures var n := CountCharacters(m, p, end, -1); var c := FromUTF8(m, p, n, end - p, size, false);
      && (c.complete <==> LegalLeads(m, p, end)) && (c.complete ==> |c.written| == n && c.read == end)
  {
    CountFrom(m, p, end, size, -1);
  }

  lemma {:induction false} CountFrom(m: Memory, p: nat, end: nat, size: int, max: int)
    requires p <= end && m(end) == 0 && (forall i :: p <= i < end ==> m(i) != 0) && max < 0
    requires 0 <= CountCharacters(m, p, end, max) <= size
    ensures var n := CountCharacters(m, p, end, max); var c := FromUTF8(m, p, n, end - p, size, false);
      && (c.complete <==> LegalLeads(m, p, end)) && (c.complete ==> |c.written| == n && c.read == end)
    decreases end - p
  {
    hide FromUTF8, CountCharacters, LegalLeads, DecodeAt, CountedAt;
    if p == end {
      CountEnds(m, end, size, max);
    } else {
      var (length, units) := CountedAt(m, p);
      CountUnfolds(m, p, end, max);
      CountedIsDecoded(m, p, end - p);
      CountFrom(m, p + length, end, size - units, max - 1);
      FromStep(m, p, CountCharacters(m, p, end, max), end - p, size);
    }
  }

  lemma CountEnds(m: Memory, end: nat, size: int, max: int)
    requires m(end) == 0
    ensures CountCharacters(m, end, end, max) == 0 && LegalLeads(m, end, end)
    ensures FromUTF8(m, end, 0, 0, size, false) == Conversion([], end, true)
  {
  }

  lemma CountUnfolds(m: Memory, p: nat, end: nat, max: int)
    requires p < end && m(end) == 0 && m(p) != 0 && max < 0 && 0 <= CountCharacters(m, p, end, max)
    ensures var (length, units) := CountedAt(m, p);
      && 0 < length && p + length <= end && 0 < units
      && 0 <= CountCharacters(m, p + length, end, max - 1) == CountCharacters(m, p, end, max) - units
      && (LegalLeads(m, p, end) <==> m(p) != 0xC0 && m(p) != 0xC1 && m(p) < 0xF5 && LegalLeads(m, p + length, end))
  {
  }

  lemma FromStep(m: Memory, p: nat, chars: int, bytes: int, size: int)
    requires chars > 0 && bytes > 0
    ensures var c := FromUTF8(m, p, chars, bytes, size, false);
      match DecodeAt(m, p, bytes)
      case Illegal(next) => !c.complete
      case Character(units, length) =>
        var rest := FromUTF8(m, p + length, chars - |units|, bytes - length, size - |units|, false);
        if size < |units| then !c.complete
        else c.complete == rest.complete && c.read == rest.read && |c.written| == |units| + |rest.written|
  {
    hide DecodeAt;
  }

  /** A character that counts is decoded to as many units unless its lead byte is refused. */
  lemma CountedIsDecoded(m: Memory, p: nat, bytes: int)
    requires m(p) != 0 && 0 < CountedAt(m, p).0 <= bytes
    ensures var lead := DecodeAt(m, p, bytes);
      if m(p) == 0xC0 || m(p) == 0xC1 || m(p) >= 0xF5 then lead.Illegal?
      else lead.Character? && lead.length == CountedAt(m, p).0 && |lead.units| == CountedAt(m, p).1
  {
    hide Two, Three, Four;
  }

  lemma FirstCounts(m: Memory, p: nat, text: seq<Unit>)
    requires Whole(text) && text != [] && HoldsAt(m, p, FirstBytes(text))
    ensures m(p) != 0 && CountedAt(m, p) == (|FirstBytes(text)|, FirstLength(text))
  {
    var e := FirstBytes(text);
    assert m(p + 0) == e[0];
    assert |e| > 1 ==> m(p + 1) == e[1];
    assert |e| > 2 ==> m(p + 2) == e[2];
    assert |e| > 3 ==> m(p + 3) == e[3];
  }

  /** Counting the characters of encoded text gives the length of the text, pairs included. */
  lemma {:induction false} EncodedCounts(m: Memory, p: nat, text: seq<Unit>, max: int)
    requires Whole(text) && HoldsAt(m, p, Encoded(text)) && m(p + |Encoded(text)|) == 0 && max < 0
    ensures CountCharacters(m, p, p + |Encoded(text)|, max) == |text|
    decreases |text|
  {
    hide FirstBytes, FirstLength, Encoded, Whole, HoldsAt, CountedAt, Moved;
    if text == [] {
      NothingConverted(m, p, 0, 0, true);
    } else {
      var n, first := FirstLength(text), FirstBytes(text);
      UnfoldText(text);
      HoldsParts(m, p, first, Encoded(text[n..]));
      FirstCounts(m, p, text);
      EncodedCounts(m, p + |first|, text[n..], max - 1);
    }
  }

  /** There and back: text that is encoded into enough room, whose characters are counted and which is
    * decoded again under that count comes back, if and only if it holds no high surrogate. */
  lemma ThereAndBack(m: Memory, p: nat, text: seq<Unit>, size8: int, size16: int)
    requires Whole(text) && |Encoded(text)| <= size8 && |text| <= size16
    requires HoldsAt(m, p, ToUTF8(text, |text|, size8, false).written + [0])
    ensures var there := ToUTF8(text, |text|, size8, false);
      && there.complete && m(p + |there.written|) == 0
      && var count := CountCharacters(m, p, p + |there.written|, -1);
      var back := FromUTF8(m, p, count, 3 * count, size16, false);
      && count == |text| && back.complete && back.read == p + |there.written|
      && (back.written == text <==> forall u :: u in text ==> !High(u))
  {
    EncodesAll(text, |text|, size8, false);
    hide ToUTF8, FromUTF8, CountCharacters;
    var e := Encoded(text);
    HoldsParts(m, p, e, [0]);
    assert m(p + |e|) == 0 by { assert m(p + |e| + 0) == [0][0]; }
    EncodedCounts(m, p, text, -1);
    RoundTrip(m, p, text, size16, false);
  }
}
