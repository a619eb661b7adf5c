/** The emulator's state and the instructions that are modelled, executed in place. */
module ArmEngines {
  import opened Arm

  class ArmState {
    const registers: array<Word>             // the 17th is written for comparisons only
    const lookupConditions: array<set<Cond>>
    var pc: Word
    var memory: map<Word, Word>              // the addresses that can be loaded and stored
    var flags: Flags                         // the condition bits of m_psr
    var rest: nat                            // its other bits

    ghost predicate Valid()
      reads this, lookupConditions
    {
      && registers.Length == 17 && lookupConditions.Length == 16
      && forall i: nat, cond :: i < 16 ==> (cond in lookupConditions[i] <==> Holds(cond, FlagsOf(i)))
    }

    ghost function Contents(): Machine
      reads this, registers
    {
      Machine(registers[..], memory, pc)
    }

    /** Initialize: the condition table is computed once. */
    constructor (memory: map<Word, Word>)
      ensures Valid() && fresh(registers) && fresh(lookupConditions) && this.memory == memory && flags == Flags(false, false, false, false)
      ensures Contents() == Machine(seq(17, _ => 0), memory, 0)
    {
      registers := new Word[17](_ => 0);
      lookupConditions := new set<Cond>[16](_ => {});
      pc, flags, rest := 0, Flags(false, false, false, false), 0xD3;
      this.memory := memory;
      new;
      var value: nat := 0;
      while value < 16
        invariant value <= 16 && fresh(lookupConditions) && lookupConditions.Length == 16
        invariant forall i: nat, cond :: i < value ==> (cond in lookupConditions[i] <==> Holds(cond, FlagsOf(i)))
        modifies lookupConditions
      {
        var res := ConditionsOf(value);
        lookupConditions[value] := res;
        value := value + 1;
      }
    }

    static method ConditionsOf(value: nat) returns (res: set<Cond>)
      requires value < 16
      ensures forall cond :: cond in res <==> Holds(cond, FlagsOf(value))
    {
      var negative, zero, carry, overflow := value / 8 % 2, value / 4 % 2, value / 2 % 2, value % 2;
      res := {};
      if zero != 0 { res := res + {EQ}; } else { res := res + {NE}; }
      if carry != 0 { res := res + {CS}; } else { res := res + {CC}; }
      if negative != 0 { res := res + {MI}; } else { res := res + {PL}; }
      if overflow != 0 { res := res + {VS}; } else { res := res + {VC}; }
      var more := MoreConditions(negative, zero, carry, overflow);
      res := res + more;
      res := res + {AL};
    }

    static method MoreConditions(negative: nat, zero: nat, carry: nat, overflow: nat) returns (res: set<Cond>)
      ensures forall cond :: cond in res <==>
        match cond
        case HI => zero == 0 && carry != 0
        case LS => zero != 0 || carry == 0
        case GE => negative == overflow
        case LT => negative != overflow
        case GT => zero == 0 && negative == overflow
        case LE => zero != 0 || negative != overflow
        case _ => false
    {
      res := {};
      if zero == 0 && carry != 0 { res := res + {HI}; }
      if zero != 0 || carry == 0 { res := res + {LS}; }
      if negative == overflow { res := res + {GE}; }
      if negative != overflow { res := res + {LT}; }
      if zero == 0 && negative == overflow { res := res + {GT}; }
      if zero != 0 || negative != overflow { res := res + {LE}; }
    }

    /** The table answers for the current condition bits. */
    method CheckConditions(cond: Cond) returns (ok: bool)
      requires Valid()
      ensures ok <==> Holds(cond, flags)
    {
      FlagsOfIndex(flags);
      ok := cond in lookupConditions[Index(flags)];
    }

    /** The arithmetic part of a data processing instruction. */
    method DataProcessing(op: Operation, rn: nat, rd: nat, operand2: Word, setConditions: bool)
      requires Valid() && rn < 16 && rd < 16
      modifies this`pc, this`flags, registers
      ensures Valid()
      ensures var res, dst := Wrap(Exact(op, old(registers[rn]), operand2, old(flags.c))), if Compares(op) then 16 else rd;
        && registers[..] == old(registers[..])[dst := res] && pc == (if dst == PC then res else old(pc))
        && flags == if setConditions then FlagsAfter(op, old(registers[rn]), operand2, old(flags.c)) else old(flags)
    {
      hide FlagsAfter;
      var dst := if Compares(op) then 16 else rd;
      var res, after := Arithmetic(op, registers[rn], operand2, flags.c);
      registers[dst] := res;
      if dst == PC {
        pc := res;
      }
      if setConditions {
        flags := after;
      }
    }

    static method Arithmetic(op: Operation, operand1: Word, operand2: Word, carryIn: bool) returns (res: Word, flags: Flags)
      ensures res == Wrap(Exact(op, operand1, operand2, carryIn)) && flags == FlagsAfter(op, operand1, operand2, carryIn)
    {
      var carry, overflow;
      if op == SUB || op == SBC || op == CMP {
        res, carry, overflow := Subtract(operand1, operand2, op == SBC && !carryIn);
      } else if op == RSB || op == RSC {
        res, carry, overflow := Subtract(operand2, operand1, op == RSC && !carryIn);
      } else {
        res, carry, overflow := Add(operand2, operand1, op == ADC && carryIn);
      }
      FlagsAgree(op, operand1, operand2, carryIn, res, carry % 2 == 1, overflow);
      flags := Flags(res >= SIGN, res == 0, carry % 2 == 1, overflow);
    }

    /** Subtraction in 64 bits: the upper half is zero or all ones. */
    static method Subtract(a: Word, b: Word, borrow: bool) returns (res: Word, carry: nat, overflow: bool)
      ensures var exact := a - b - if borrow then 1 else 0;
        && res == Wrap(exact) && (carry % 2 == 1 <==> exact >= 0)
        && overflow == ((a >= SIGN) != (b >= SIGN) && (a >= SIGN) != (res >= SIGN))
    {
      var res64 := (a - b) % (WRAP * WRAP);
      if borrow {
        res64 := (res64 - 1) % (WRAP * WRAP);
      }
      UpperHalf(a - b);
      UpperHalf(a - b - 1);
      carry := if res64 / WRAP % 2 == 1 then 0 else 1;
      res := res64 % WRAP;
      overflow := (a >= SIGN) != (b >= SIGN) && (a >= SIGN) != (res >= SIGN);
    }

    static method Add(a: Word, b: Word, carryIn: bool) returns (res: Word, carry: nat, overflow: bool)
      ensures var exact := a + b + if carryIn then 1 else 0;
        && res == Wrap(exact) && (carry % 2 == 1 <==> exact >= WRAP)
        && overflow == ((a >= SIGN) == (b >= SIGN) && (b >= SIGN) != (res >= SIGN))
    {
      var res64 := a + b;
      if carryIn {
        res64 := res64 + 1;
      }
      carry := res64 / WRAP;
      res := res64 % WRAP;
      overflow := (a >= SIGN) == (b >= SIGN) && (b >= SIGN) != (res >= SIGN);
    }

    /** The number of registers in the list. */
    method CountList(list: nat) returns (num: nat)
      ensures num == |Listed(list, 0)|
    {
      num := 0;
      var lst := list;
      ghost var rd: nat := 0;
      while lst != 0
        invariant num + |Listed(lst, rd)| == |Listed(list, 0)|
        decreases lst
      {
        if lst % 2 == 1 {
          num := num + 1;
        }
        lst := lst / 2;
        rd := rd + 1;
      }
    }

    /** One word goes from memory to a register or back. */
    method TransferWord(load: bool, rd: nat, address: Word) returns (ok: bool)
      requires Valid() && rd < 16
      modifies this`memory, this`pc, registers
      ensures Valid() && ok == (address in old(memory)) && (!ok ==> Contents() == old(Contents()))
      ensures ok && load ==> Contents() == Loaded(old(Contents()), rd, old(memory)[address])
      ensures ok && !load ==> Contents() == old(Contents()).(memory := old(memory)[address := old(registers[rd])])
    {
      if address !in memory {
        return false;
      }
      if load {
        registers[rd] := memory[address];
        if rd == PC {
          pc := registers[PC];
        }
      } else {
        memory := memory[address := registers[rd]];
      }
      return true;
    }

    /** The words of the listed registers, lowest register first, upwards from an address. */
    method TransferWords(load: bool, list: nat, start: Word) returns (ok: bool)
      requires Valid() && list < Pow2(16) && BelowPC(Listed(list, 0))
      modifies this`memory, this`pc, registers
      ensures Valid() && Execution(Contents(), ok) == TransferFrom(load, old(Contents()), Listed(list, 0), start)
    {
      hide StoreAll, LoadAll, Loaded, TransferFrom, Listed, BelowPC;
      ghost var m, all := Contents(), Listed(list, 0);
      var rd: nat, lst: nat, addressNext: Word := 0, list, start;
      while lst != 0
        invariant Valid() && rd <= 16 && lst < Pow2(16 - rd) && BelowPC(Listed(lst, rd))
        invariant TransferFrom(load, m, all, start) == TransferFrom(load, Contents(), Listed(lst, rd), addressNext)
        decreases lst
      {
        TransferStep(load, Contents(), lst, rd, addressNext);
        if lst % 2 == 1 {
          var done := TransferWord(load, rd, addressNext);
          if !done {
            return false;
          }
          addressNext := Wrap(addressNext + 4);
        }
        rd := rd + 1;
        lst := lst / 2;
      }
      TransferEnds(load, Contents(), rd, addressNext);
      return true;
    }

    /** LDM and STM. */
    method ExecuteBlockTransfer(t: BlockTransfer) returns (ok: bool)
      requires Valid() && Encodable(Contents(), t)
      modifies this`memory, this`pc, registers
      ensures Valid() && Execution(Contents(), ok) == Transfer(old(Contents()), t)
    {
      hide StoreAll, LoadAll, Listed, Loaded, Wrap, Pow2, Valid;
      var address: int := registers[t.base];
      var num := CountList(t.list);
      ListedRegisters(t.list, 0);
      var addressNext := address;
      if t.up {
        if t.preIndex { addressNext := addressNext + 4; }
      } else {
        addressNext := address - num * 4;
        if !t.preIndex { addressNext := addressNext + 4; }
      }
      ok := TransferWords(t.load, t.list, Wrap(addressNext));
      if !ok || t.loadPsr {
        return false;
      }
      if t.writeBack {
        if t.up { address := address + 4 * num; } else { address := address - 4 * num; }
        registers[t.base] := Wrap(address);
      }
    }
  }

  /** All the registers can be transferred. */
  ghost predicate BelowPC(registers: seq<nat>) {
    forall i :: 0 <= i < |registers| ==> registers[i] <= PC
  }

  lemma UpperHalf(x: int)
    requires -WRAP - 1 <= x < WRAP
    ensures var y := x % (WRAP * WRAP); y % WRAP == x % WRAP
    ensures var y := x % (WRAP * WRAP); x >= -WRAP ==> (y / WRAP % 2 == 1 <==> x < 0)
  {
  }

  /** The emulator's overflow rule, by the sign bits, is the specified one. */
  lemma FlagsAgree(op: Operation, a: Word, b: Word, carryIn: bool, res: Word, carry: bool, overflow: bool)
    requires res == Wrap(Exact(op, a, b, carryIn))
    requires carry == if Adds(op) then Exact(op, a, b, carryIn) >= WRAP else Exact(op, a, b, carryIn) >= 0
    requires overflow ==
      if Adds(op) then (a >= SIGN) == (b >= SIGN) && (a >= SIGN) != (res >= SIGN)
      else if op == RSB || op == RSC then (a >= SIGN) != (b >= SIGN) && (b >= SIGN) != (res >= SIGN)
      else (a >= SIGN) != (b >= SIGN) && (a >= SIGN) != (res >= SIGN)
    ensures FlagsAfter(op, a, b, carryIn) == Flags(res >= SIGN, res == 0, carry, overflow)
  {
    if Adds(op) {
      AddedOverflow(a, b, op == ADC && carryIn);
    } else if op == RSB || op == RSC {
      SubtractedOverflow(b, a, op == RSC && !carryIn);
    } else {
      SubtractedOverflow(a, b, op == SBC && !carryIn);
    }
    hide Wrap;
  }

  lemma SubtractedOverflow(a: Word, b: Word, borrow: bool)
    ensures var k := if borrow then 1 else 0; var res := Wrap(a - b - k);
      ((a >= SIGN) != (b >= SIGN) && (a >= SIGN) != (res >= SIGN)) <==> !(-SIGN <= Signed(a) - Signed(b) - k < SIGN)
  {
    WrapOnce(a - b - if borrow then 1 else 0);
  }

  lemma AddedOverflow(a: Word, b: Word, carry: bool)
    ensures var k := if carry then 1 else 0; var res := Wrap(a + b + k);
      ((a >= SIGN) == (b >= SIGN) && (a >= SIGN) != (res >= SIGN)) <==> !(-SIGN <= Signed(a) + Signed(b) + k < SIGN)
  {
    WrapOnce(a + b + if carry then 1 else 0);
  }

  ghost function TransferFrom(load: bool, m: Machine, registers: seq<nat>, address: Word): Execution
    requires |m.registers| == 17 && BelowPC(registers)
  {
    if load then LoadAll(m, registers, address) else StoreAll(m, registers, address)
  }

  lemma TransferStep(load: bool, m: Machine, list: nat, rd: nat, address: Word)
    requires list != 0 && rd <= 16 && list < Pow2(16 - rd) && |m.registers| == 17 && BelowPC(Listed(list, rd))
    ensures rd < 16 && list / 2 < Pow2(15 - rd) && BelowPC(Listed(list / 2, rd + 1))
    ensures list % 2 == 0 ==> Listed(list, rd) == Listed(list / 2, rd + 1)
    ensures list % 2 == 1 && address !in m.memory ==> TransferFrom(load, m, Listed(list, rd), address) == Execution(m, false)
    ensures list % 2 == 1 && address in m.memory ==>
      var m' := if load then Loaded(m, rd, m.memory[address]) else m.(memory := m.memory[address := m.registers[rd]]);
      TransferFrom(load, m, Listed(list, rd), address) == TransferFrom(load, m', Listed(list / 2, rd + 1), Wrap(address + 4))
  {
    assert rd < 16;
    var all, rest := Listed(list, rd), Listed(list / 2, rd + 1);
    assert list % 2 == 1 ==> all[1..] == rest && all[0] == rd;
    forall i | 0 <= i < |rest| ensures rest[i] <= PC {
      assert rest[i] == all[if list % 2 == 1 then i + 1 else i];
    }
  }

  lemma TransferEnds(load: bool, m: Machine, rd: nat, address: Word)
    requires |m.registers| == 17
    ensures Listed(0, rd) == [] && TransferFrom(load, m, [], address) == Execution(m, true)
  {
  }
}
