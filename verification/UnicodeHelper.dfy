/** The converters, with their cursors and output buffers. */
module UnicodeHelpers {
  import opened Unicode

  /** The local cursors of a conversion: where it reads, where it writes, the room and the characters left. */
  datatype Cursor = Cursor(input: nat, output: nat, size: int, left: int)

  datatype Progress = More | End | Full

  /** What was done so far and what is still to do make up the whole conversion. */
  ghost predicate Continues<T>(whole: Conversion<T>, done: seq<T>, read: nat, rest: Conversion<T>) {
    whole == Conversion(done + rest.written, read + rest.read, rest.complete)
  }

  /** The buffer holds `done` from `start` on, and is as before everywhere else. */
  ghost predicate Wrote<T>(before: seq<T>, now: seq<T>, start: nat, done: seq<T>) {
    && |now| == |before| && start + |done| <= |now|
    && (forall i :: 0 <= i < |done| ==> now[start + i] == done[i])
    && (forall i :: 0 <= i < |now| && !(start <= i < start + |done|) ==> now[i] == before[i])
  }

  lemma WroteMore<T>(before: seq<T>, now: seq<T>, next: seq<T>, start: nat, done: seq<T>, more: seq<T>)
    requires Wrote(before, now, start, done) && Wrote(now, next, start + |done|, more)
    ensures Wrote(before, next, start, done + more)
  {
  }

  lemma EncodeStep(whole: Conversion<Byte>, done: seq<Byte>, read: nat, rest: seq<Unit>, chars: int, size: int, move: bool)
    requires Whole(rest) && rest != [] && chars > 0 && Continues(whole, done, read, ToUTF8(rest, chars, size, move))
    requires move || |FirstBytes(rest)| <= size
    ensures var n, bytes := FirstLength(rest), FirstBytes(rest);
      Continues(whole, done + bytes, read + n, ToUTF8(rest[n..], if n == 1 then chars - 1 else chars, if move then size else size - |bytes|, move))
  {
    var n, bytes := FirstLength(rest), FirstBytes(rest);
    var c := ToUTF8(rest[n..], if n == 1 then chars - 1 else chars, if move then size else size - |bytes|, move);
    assert done + (bytes + c.written) == done + bytes + c.written;
  }

  lemma EncodeStop(whole: Conversion<Byte>, done: seq<Byte>, read: nat, rest: seq<Unit>, chars: int, size: int, move: bool)
    requires Whole(rest) && Continues(whole, done, read, ToUTF8(rest, chars, size, move))
    ensures chars <= 0 ==> whole == Conversion(done, read, true)
    ensures chars > 0 && rest == [] ==> whole == Conversion(done, read + 1, true)
    ensures chars > 0 && rest != [] && !move && size < |FirstBytes(rest)| ==>
      whole == Conversion(done, read + FirstLength(rest), false)
  {
    assert done + [] == done;
  }

  lemma ContinuesStart<T>(whole: Conversion<T>)
    ensures Continues(whole, [], 0, whole)
  {
    assert [] + whole.written == whole.written;
  }

  lemma WroteNothing<T>(buffer: seq<T>, start: nat)
    requires start <= |buffer|
    ensures Wrote(buffer, buffer, start, [])
  {
  }

  lemma WroteEnd<T>(before: seq<T>, now: seq<T>, start: nat, done: seq<T>, last: T)
    requires Wrote(before, now, start, done) && start + |done| < |now|
    ensures Wrote(before, now[start + |done| := last], start, done + [last])
  {
  }

  // ----- Stores of one character

  method StoreOne(output: array<Byte>, at: nat, u: Unit)
    requires at < output.Length && u < 0x80
    modifies output
    ensures Wrote(old(output[..]), output[..], at, EncodeUnit(u))
  {
    output[at] := u;
  }

  method StoreTwo(output: array<Byte>, at: nat, u: Unit)
    requires at + 2 <= output.Length && 0x80 <= u < 0x800
    modifies output
    ensures Wrote(old(output[..]), output[..], at, EncodeUnit(u))
  {
    var ch := u;
    output[at + 1] := 0x80 + ch % 0x40;
    ch := ch / 0x40;
    output[at] := 0xC0 + ch % 0x20;
  }

  method StoreThree(output: array<Byte>, at: nat, u: Unit)
    requires at + 3 <= output.Length && 0x800 <= u
    modifies output
    ensures Wrote(old(output[..]), output[..], at, EncodeUnit(u))
  {
    var ch := u;
    output[at + 2] := 0x80 + ch % 0x40;
    ch := ch / 0x40;
    output[at + 1] := 0x80 + ch % 0x40;
    ch := ch / 0x40;
    output[at] := 0xE0 + ch % 0x10;
  }

  method StoreFour(output: array<Byte>, at: nat, v: int)
    requires at + 4 <= output.Length && 0 <= v < 0x200000
    modifies output
    ensures Wrote(old(output[..]), output[..], at, EncodePoint(v))
  {
    var ch := v;
    output[at + 3] := 0x80 + ch % 0x40;
    ch := ch / 0x40;
    output[at + 2] := 0x80 + ch % 0x40;
    ch := ch / 0x40;
    output[at + 1] := 0x80 + ch % 0x40;
    ch := ch / 0x40;
    output[at] := 0xF0 + ch % 8;
    Quotients(v);
  }

  lemma Quotients(v: int)
    requires 0 <= v < 0x200000
    ensures v / 0x40 / 0x40 == v / 0x1000 && v / 0x40 / 0x40 / 0x40 == v / 0x40000 < 8
  {
  }

  class UnicodeHelper {
    var inputUTF8: Memory
    var position8: nat
    var inputUTF16: seq<Unit>
    var position16: nat
    var outputUTF8: array<Byte>
    var at8: nat
    var size8: int
    var outputUTF16: array<Unit>
    var at16: nat
    var size16: int

    constructor (inputUTF8: Memory, inputUTF16: seq<Unit>, outputUTF8: array<Byte>, outputUTF16: array<Unit>)
      ensures this.inputUTF8 == inputUTF8 && this.inputUTF16 == inputUTF16 && position8 == position16 == at8 == at16 == 0
      ensures this.outputUTF8 == outputUTF8 && this.outputUTF16 == outputUTF16
      ensures size8 == outputUTF8.Length && size16 == outputUTF16.Length
    {
      this.inputUTF8, this.inputUTF16, this.outputUTF8, this.outputUTF16 := inputUTF8, inputUTF16, outputUTF8, outputUTF16;
      position8, position16, at8, at16 := 0, 0, 0, 0;
      size8, size16 := outputUTF8.Length, outputUTF16.Length;
    }

    /** One round of ConvertToUTF8. */
    method EncodeNext(c: Cursor, justMove: bool, ghost rest: seq<Unit>) returns (c': Cursor, progress: Progress)
      requires Whole(rest) && TextAt(inputUTF16, c.input, rest) && 0 <= c.size && c.output + c.size <= outputUTF8.Length
      modifies outputUTF8
      ensures progress == End <==> rest == []
      ensures progress == End ==> c' == c.(input := c.input + 1)
      ensures rest != [] ==>
        var n, bytes := FirstLength(rest), FirstBytes(rest);
        && (progress == Full <==> !justMove && c.size < |bytes|) && (progress == Full ==> c' == c.(input := c.input + n))
        && (progress == More ==>
              && c' == Cursor(c.input + n, if justMove then c.output else c.output + |bytes|,
                              if justMove then c.size else c.size - |bytes|, if n == 1 then c.left - 1 else c.left)
              && (!justMove ==> Wrote(old(outputUTF8[..]), outputUTF8[..], c.output, bytes)))
      ensures justMove || progress != More ==> outputUTF8[..] == old(outputUTF8[..])
    {
      hide Whole, ToUTF8, EncodeUnit, EncodePoint, Wrote;
      TextStarts(inputUTF16, c.input, rest);
      var ch := inputUTF16[c.input];
      c' := c.(input := c.input + 1);
      if ch < 0x80 {
        if ch == 0 {
          return c', End;
        }
        if !justMove {
          if c.size < 1 { return c', Full; }
          StoreOne(outputUTF8, c.output, ch);
          c' := c'.(output := c.output + 1, size := c.size - 1);
        }
        c' := c'.(left := c.left - 1);
      } else if ch < 0x800 {
        if !justMove {
          if c.size < 2 { return c', Full; }
          StoreTwo(outputUTF8, c.output, ch);
          c' := c'.(output := c.output + 2, size := c.size - 2);
        }
        c' := c'.(left := c.left - 1);
      } else if HIGH_START <= ch <= HIGH_END {
        var v := HALF_BASE + (ch - HIGH_START) * 1024 + (inputUTF16[c.input + 1] - LOW_START);
        c' := c'.(input := c.input + 2);
        if !justMove {
          if c.size < 4 { return c', Full; }
          StoreFour(outputUTF8, c.output, v);
          c' := c'.(output := c.output + 4, size := c.size - 4);
        }
      } else {
        if !justMove {
          if c.size < 3 { return c', Full; }
          StoreThree(outputUTF8, c.output, ch);
          c' := c'.(output := c.output + 3, size := c.size - 3);
        }
        c' := c'.(left := c.left - 1);
      }
      return c', More;
    }

    /** ConvertToUTF8 writes what the specification says, within the stated size, and a terminator. */
    method ConvertToUTF8(iMaxChars: int, justMove: bool, ghost text: seq<Unit>) returns (res: bool)
      requires Whole(text) && TextAt(inputUTF16, position16, text) && 0 <= size8 && at8 + size8 <= outputUTF8.Length
      modifies this`position16, this`at8, this`size8, outputUTF8
      ensures var c := ToUTF8(text, iMaxChars, old(size8), justMove);
        && position16 == old(position16) + c.read
        && res == (c.complete && (justMove || |c.written| < old(size8)))
        && at8 == old(at8) + (if justMove then 0 else |c.written|) && at8 + size8 == old(at8 + size8)
        && Wrote(old(outputUTF8[..]), outputUTF8[..], old(at8),
                 if justMove then [] else if res then c.written + [0] else c.written)
    {
      hide Whole, ToUTF8, EncodeUnit, EncodePoint, Wrote, Continues, TextAt, FirstBytes, FirstLength;
      var c := Cursor(position16, at8, size8, iMaxChars);
      ghost var whole := ToUTF8(text, c.left, c.size, justMove);
      ghost var done: seq<Byte>, k, before := [], 0, outputUTF8[..];
      assert text[0..] == text;
      var progress := More;
      WroteNothing(before, at8);
      ContinuesStart(whole);
      while c.left > 0 && progress == More
        invariant 0 <= k <= |text| && c.input >= position16
        invariant progress == More ==> Whole(text[k..]) && TextAt(inputUTF16, c.input, text[k..]) && c.input == position16 + k
        invariant progress == More ==> Continues(whole, done, k, ToUTF8(text[k..], c.left, c.size, justMove))
        invariant progress != More ==> whole == Conversion(done, c.input - position16, progress == End)
        invariant 0 <= c.size && (if justMove then c.output == at8 && c.size == size8 else c.output == at8 + |done| && c.size == size8 - |done|)
        invariant Wrote(before, outputUTF8[..], at8, if justMove then [] else done)
        decreases |text| - k + if progress == More then 1 else 0
        modifies outputUTF8
      {
        ghost var rest, now, c0 := text[k..], outputUTF8[..], c;
        EncodeStop(whole, done, k, rest, c.left, c.size, justMove);
        c, progress := EncodeNext(c, justMove, rest);
        if progress == More {
          ghost var n, bytes := FirstLength(rest), FirstBytes(rest);
          EncodeStep(whole, done, k, rest, c0.left, c0.size, justMove);
          RestStep(inputUTF16, c0.input, rest, n);
          assert text[k..][n..] == text[k + n..];
          if !justMove {
            WroteMore(before, now, outputUTF8[..], at8, done, bytes);
          }
          done, k := done + bytes, k + n;
        }
      }
      if progress == More {
        EncodeStop(whole, done, k, text[k..], c.left, c.size, justMove);
      }
      res := FinishUTF8(c, justMove, progress != Full, before, done);
    }

    /** The terminator and the cursors. */
    method FinishUTF8(c: Cursor, justMove: bool, complete: bool, ghost before: seq<Byte>, ghost done: seq<Byte>)
      returns (res: bool)
      requires 0 <= c.size && c.output + c.size <= outputUTF8.Length && (!justMove ==> c.output == at8 + |done|)
      requires Wrote(before, outputUTF8[..], at8, if justMove then [] else done)
      modifies this`position16, this`at8, this`size8, outputUTF8
      ensures position16 == c.input && at8 == c.output && size8 == c.size
      ensures res == (complete && (justMove || c.size >= 1))
      ensures Wrote(before, outputUTF8[..], old(at8), if justMove then [] else if res then done + [0] else done)
    {
      res := complete;
      if res && !justMove {
        if c.size < 1 {
          res := false;
        } else {
          WroteEnd(before, outputUTF8[..], at8, done, 0);
          outputUTF8[c.output] := 0;
        }
      }
      position16, at8, size8 := c.input, c.output, c.size;
    }

    /** One round of ConvertFromUTF8. */
    method DecodeNext(c: Cursor, bytes: int, justMove: bool) returns (c': Cursor, bytes': int, ok: bool)
      requires c.left > 0 && bytes > 0 && 0 <= c.size && c.output + c.size <= outputUTF16.Length
      modifies outputUTF16
      ensures
        match DecodeAt(inputUTF8, c.input, bytes)
        case Illegal(next) => !ok && c' == c.(input := next)
        case Character(units, length) =>
          if !justMove && c.size < |units| then !ok && c' == c
          else
            && ok && bytes' == bytes - length
            && c' == Cursor(c.input + length, if justMove then c.output else c.output + |units|,
                            if justMove then c.size else c.size - |units|, c.left - |units|)
            && (!justMove ==> Wrote(old(outputUTF16[..]), outputUTF16[..], c.output, units))
      ensures justMove || !ok ==> outputUTF16[..] == old(outputUTF16[..])
    {
      hide Two, Three, Four;
      var ch := inputUTF8(c.input);
      c', bytes', ok := c.(input := c.input + 1), bytes, true;
      if ch < 0x80 {
        if ch == 0 || (!justMove && c.size < 1) {
          return c, bytes, false;
        }
        if !justMove {
          outputUTF16[c.output] := ch;
          c' := c'.(output := c.output + 1, size := c.size - 1);
        }
        c', bytes' := c'.(left := c.left - 1), bytes - 1;
      } else if ch < 0xC0 {
        return c', bytes, false;
      } else if ch < 0xE0 {
        if ch < 0xC2 || bytes < 2 || (!justMove && c.size < 1) {
          return c, bytes, false;
        }
        if justMove {
          c' := c'.(input := c.input + 2);
        } else {
          var u, next := LoadTwo(c.input);
          outputUTF16[c.output] := u;
          c' := c'.(input := next, output := c.output + 1, size := c.size - 1);
        }
        c', bytes' := c'.(left := c.left - 1), bytes - 2;
      } else if ch < 0xF0 {
        if bytes < 3 || (!justMove && c.size < 1) {
          return c, bytes, false;
        }
        if justMove {
          c' := c'.(input := c.input + 3);
        } else {
          var u, next := LoadThree(c.input);
          outputUTF16[c.output] := u;
          c' := c'.(input := next, output := c.output + 1, size := c.size - 1);
        }
        c', bytes' := c'.(left := c.left - 1), bytes - 3;
      } else {
        if ch >= 0xF5 || bytes < 4 || (!justMove && c.size < 2) {
          return c, bytes, false;
        }
        if justMove {
          c' := c'.(input := c.input + 4);
        } else {
          var v, next := LoadFour(c.input);
          outputUTF16[c.output] := v / 1024 + HIGH_START;
          outputUTF16[c.output + 1] := v % 1024 + LOW_START;
          c' := c'.(input := next, output := c.output + 2, size := c.size - 2);
        }
        c', bytes' := c'.(left := c.left - 2), bytes - 4;
      }
    }

    method LoadTwo(p: nat) returns (u: Unit, next: nat)
      ensures u == Two(inputUTF8, p) && next == p + 2
    {
      var ch2 := inputUTF8(p) % 0x20;
      u, next := ch2 * 0x40 + inputUTF8(p + 1) % 0x40, p + 2;
    }

    method LoadThree(p: nat) returns (u: Unit, next: nat)
      ensures u == Three(inputUTF8, p) && next == p + 3
    {
      var ch2 := inputUTF8(p) % 0x10;
      ch2 := ch2 * 0x40 + inputUTF8(p + 1) % 0x40;
      u, next := ch2 * 0x40 + inputUTF8(p + 2) % 0x40, p + 3;
    }

    method LoadFour(p: nat) returns (v: int, next: nat)
      ensures v == Four(inputUTF8, p) && next == p + 4
    {
      v := inputUTF8(p) % 8;
      v := v * 0x40 + inputUTF8(p + 1) % 0x40;
      v := v * 0x40 + inputUTF8(p + 2) % 0x40;
      v, next := v * 0x40 + inputUTF8(p + 3) % 0x40, p + 4;
    }

    /** ConvertFromUTF8 writes what the specification says, within the stated size, and a terminator. */
    method ConvertFromUTF8(iMaxChars: int, justMove: bool, iMaxBytes: int) returns (res: bool)
      requires 0 <= size16 && at16 + size16 <= outputUTF16.Length
      modifies this`position8, this`at16, this`size16, outputUTF16
      ensures
        var c := FromUTF8(inputUTF8, old(position8), iMaxChars, if iMaxBytes == -1 then iMaxChars * 3 else iMaxBytes, old(size16), justMove);
        && position8 == c.read
        && res == (c.complete && (justMove || |c.written| < old(size16)))
        && at16 == old(at16) + (if justMove then 0 else |c.written|) && at16 + size16 == old(at16 + size16)
        && Wrote(old(outputUTF16[..]), outputUTF16[..], old(at16),
                 if justMove then [] else if res then c.written + [0] else c.written)
    {
      hide FromUTF8, DecodeAt, Wrote, Resumes;
      var c := Cursor(position8, at16, size16, iMaxChars);
      var bytes := if iMaxBytes == -1 then iMaxChars * 3 else iMaxBytes;
      ghost var whole := FromUTF8(inputUTF8, c.input, c.left, bytes, c.size, justMove);
      ghost var done: seq<Unit>, before := [], outputUTF16[..];
      var ok := true;
      WroteNothing(before, at16);
      ResumesStart(whole);
      while c.left > 0 && bytes > 0 && ok
        invariant ok ==> Resumes(whole, done, FromUTF8(inputUTF8, c.input, c.left, bytes, c.size, justMove))
        invariant !ok ==> whole == Conversion(done, c.input, false)
        invariant 0 <= c.size && (if justMove then c.output == at16 && c.size == size16 else c.output == at16 + |done| && c.size == size16 - |done|)
        invariant Wrote(before, outputUTF16[..], at16, if justMove then [] else done)
        decreases ok, bytes
        modifies outputUTF16
      {
        ghost var now, c0, lead := outputUTF16[..], c, DecodeAt(inputUTF8, c.input, bytes);
        ResumesStep(whole, done, inputUTF8, c.input, c.left, bytes, c.size, justMove);
        CharacterHasBytes(inputUTF8, c.input, bytes);
        c, bytes, ok := DecodeNext(c, bytes, justMove);
        if ok {
          if !justMove {
            WroteMore(before, now, outputUTF16[..], at16, done, lead.units);
          }
          done := done + lead.units;
        }
      }
      if ok {
        ResumesStep(whole, done, inputUTF8, c.input, c.left, bytes, c.size, justMove);
      }
      res := FinishUTF16(c, justMove, ok, before, done);
    }

    method FinishUTF16(c: Cursor, justMove: bool, complete: bool, ghost before: seq<Unit>, ghost done: seq<Unit>)
      returns (res: bool)
      requires 0 <= c.size && c.output + c.size <= outputUTF16.Length && (!justMove ==> c.output == at16 + |done|)
      requires Wrote(before, outputUTF16[..], at16, if justMove then [] else done)
      modifies this`position8, this`at16, this`size16, outputUTF16
      ensures position8 == c.input && at16 == c.output && size16 == c.size
      ensures res == (complete && (justMove || c.size >= 1))
      ensures Wrote(before, outputUTF16[..], old(at16), if justMove then [] else if res then done + [0] else done)
    {
      res := complete;
      if res && !justMove {
        if c.size < 1 {
          res := false;
        } else {
          WroteEnd(before, outputUTF16[..], at16, done, 0);
          outputUTF16[c.output] := 0;
        }
      }
      position8, at16, size16 := c.input, c.output, c.size;
    }

    /** CountNumberOfBytes. */
    method CountNumberOfBytes(max: int, ghost text: seq<Unit>) returns (num: int)
      requires TextAt(inputUTF16, position16, text)
      ensures num == CountBytes(text, max)
    {
      hide CountBytes;
      var left, p := max, position16;
      ghost var k := 0;
      num := 0;
      assert text[0..] == text;
      while true
        invariant 0 <= k <= |text| && p == position16 + k && num >= 0
        invariant CountBytes(text, max) == (if CountBytes(text[k..], left) < 0 then -1 else num + CountBytes(text[k..], left))
        decreases |text| - k
      {
        CountStep(inputUTF16, position16, text, k, left);
        var ch := inputUTF16[p];
        p := p + 1;
        if ch == 0 { break; }
        if left == 0 { break; }
        left := left - 1;
        if ch < 0x80 {
          num := num + 1;
        } else if ch < 0x800 {
          num := num + 2;
        } else if LOW_START <= ch <= LOW_END {
          return -1;
        } else if HIGH_START <= ch <= HIGH_END {
          ch := inputUTF16[p];
          p := p + 1;
          if !(LOW_START <= ch <= LOW_END) {
            return -1;
          }
          num := num + 4;
          k := k + 1;
        } else {
          num := num + 3;
        }
        k := k + 1;
      }
    }

    /** CountNumberOfCharacters. */
    method CountNumberOfCharacters(max: int, ghost end: nat) returns (num: int)
      requires position8 <= end && inputUTF8(end) == 0
      ensures num == CountCharacters(inputUTF8, position8, end, max)
    {
      hide CountCharacters;
      var left, p := max, position8;
      num := 0;
      while true
        invariant p <= end && num >= 0
        invariant CountCharacters(inputUTF8, position8, end, max)
               == (if CountCharacters(inputUTF8, p, end, left) < 0 then -1 else num + CountCharacters(inputUTF8, p, end, left))
        decreases end - p
      {
        CharactersStep(inputUTF8, p, end, left);
        var ch := inputUTF8(p);
        if ch == 0 { break; }
        if left == 0 { break; }
        left := left - 1;
        if ch < 0x80 {
          num, p := num + 1, p + 1;
        } else if ch < 0xC0 {
          return -1;
        } else if ch < 0xE0 {
          if BadLowPart(inputUTF8(p + 1)) { return -1; }
          num, p := num + 1, p + 2;
        } else if ch < 0xF0 {
          if BadLowPart(inputUTF8(p + 1)) { return -1; }
          if BadLowPart(inputUTF8(p + 2)) { return -1; }
          num, p := num + 1, p + 3;
        } else {
          if BadLowPart(inputUTF8(p + 1)) { return -1; }
          if BadLowPart(inputUTF8(p + 2)) { return -1; }
          if BadLowPart(inputUTF8(p + 3)) { return -1; }
          num, p := num + 2, p + 4;
        }
      }
    }
  }

  predicate BadLowPart(ch: Byte) {
    ch < 0x80 || ch > 0xBF
  }

  lemma CharactersStep(m: Memory, p: nat, end: nat, max: int)
    requires p <= end && m(end) == 0
    ensures m(p) == 0 || max == 0 ==> CountCharacters(m, p, end, max) == 0
    ensures m(p) != 0 && max != 0 ==>
      var (length, units) := CountedAt(m, p);
      if length == 0 then CountCharacters(m, p, end, max) == -1
      else
        && p + length <= end
        && var rest := CountCharacters(m, p + length, end, max - 1);
        CountCharacters(m, p, end, max) == if rest < 0 then -1 else units + rest
  {
  }

  lemma CountStep(input: seq<Unit>, pos: nat, text: seq<Unit>, k: nat, max: int)
    requires TextAt(input, pos, text) && k <= |text|
    ensures k == |text| ==> input[pos + k] == 0
    ensures k < |text| ==> input[pos + k] == text[k] && pos + k + 1 < |input|
    ensures k == |text| || text[k] == 0 || max == 0 ==> CountBytes(text[k..], max) == 0
    ensures k < |text| && text[k] != 0 && max != 0 ==>
      var ch, n := text[k], CountBytes(text[k..], max);
      if Low(ch) || (High(ch) && !Low(input[pos + k + 1])) then n == -1
      else if High(ch) then
        && k + 1 < |text|
        && n == if CountBytes(text[k + 2..], max - 1) < 0 then -1 else CountBytes(text[k + 2..], max - 1) + 4
      else
        var rest := CountBytes(text[k + 1..], max - 1);
        n == if rest < 0 then -1 else rest + if ch < 0x80 then 1 else if ch < 0x800 then 2 else 3
  {
    if k < |text| {
      assert input[pos..pos + |text|][k] == text[k];
      assert text[k..][1..] == text[k + 1..];
      if k + 1 < |text| {
        assert input[pos..pos + |text|][k + 1] == text[k + 1];
        assert text[k..][2..] == text[k + 2..];
      }
    }
  }

  lemma CharacterHasBytes(m: Memory, p: nat, bytes: int)
    requires bytes > 0
    ensures DecodeAt(m, p, bytes).Character? ==> 0 < DecodeAt(m, p, bytes).length <= bytes
  {
    hide Two, Three, Four;
  }

  lemma ResumesStart(whole: Conversion<Unit>)
    ensures Resumes(whole, [], whole)
  {
    assert [] + whole.written == whole.written;
  }

  lemma ResumesStep(whole: Conversion<Unit>, done: seq<Unit>, m: Memory, p: nat, chars: int, bytes: int, size: int, move: bool)
    requires Resumes(whole, done, FromUTF8(m, p, chars, bytes, size, move))
    ensures chars <= 0 || bytes <= 0 ==> whole == Conversion(done, p, true)
    ensures chars > 0 && bytes > 0 ==>
      match DecodeAt(m, p, bytes)
      case Illegal(next) => whole == Conversion(done, next, false)
      case Character(units, length) =>
        if !move && size < |units| then whole == Conversion(done, p, false)
        else Resumes(whole, done + units,
                     FromUTF8(m, p + length, chars - |units|, bytes - length, if move then size else size - |units|, move))
  {
    hide DecodeAt;
    assert done + [] == done;
    if chars > 0 && bytes > 0 {
      var lead := DecodeAt(m, p, bytes);
      if lead.Character? && (move || size >= |lead.units|) {
        var rest := FromUTF8(m, p + lead.length, chars - |lead.units|, bytes - lead.length, if move then size else size - |lead.units|, move);
        assert done + (lead.units + rest.written) == done + lead.units + rest.written;
      }
    }
  }

  /** The whole conversion is what was done and what the rest still does. */
  ghost predicate Resumes(whole: Conversion<Unit>, done: seq<Unit>, rest: Conversion<Unit>) {
    whole == rest.(written := done + rest.written)
  }

  /** The text is at this place, followed by its terminator. */
  ghost predicate TextAt(input: seq<Unit>, pos: nat, text: seq<Unit>) {
    pos + |text| < |input| && input[pos..pos + |text|] == text && input[pos + |text|] == 0
  }

  lemma TextStarts(input: seq<Unit>, pos: nat, rest: seq<Unit>)
    requires Whole(rest) && TextAt(input, pos, rest)
    ensures rest == [] ==> input[pos] == 0
    ensures rest != [] ==>
      && input[pos] == rest[0] != 0 && FirstLength(rest) == (if High(rest[0]) then 2 else 1)
      && (High(rest[0]) ==> |rest| > 1 && input[pos + 1] == rest[1] && FirstBytes(rest) == EncodePoint(PairValue(rest[0], rest[1])))
      && (!High(rest[0]) ==> FirstBytes(rest) == EncodeUnit(rest[0]))
      && |FirstBytes(rest)| == if High(rest[0]) then 4 else if rest[0] < 0x80 then 1 else if rest[0] < 0x800 then 2 else 3
  {
    if rest != [] {
      assert input[pos..pos + |rest|][0] == rest[0];
      if High(rest[0]) {
        assert input[pos..pos + |rest|][1] == rest[1];
      }
    }
  }

  lemma RestStep(input: seq<Unit>, pos: nat, rest: seq<Unit>, n: nat)
    requires TextAt(input, pos, rest) && Whole(rest) && rest != [] && n == FirstLength(rest)
    ensures TextAt(input, pos + n, rest[n..]) && Whole(rest[n..]) && n > 0
  {
    assert input[pos + n..pos + |rest|] == input[pos..pos + |rest|][n..];
  }
}
