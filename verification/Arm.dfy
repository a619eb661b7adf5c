/** The emulated ARM processor: condition codes, arithmetic flags and block transfers. */
module Arm {

  type Word = w: int | 0 <= w < 0x1_0000_0000

  const WRAP := 0x1_0000_0000
  const SIGN := 0x8000_0000

  function Wrap(x: int): Word {
    x % WRAP
  }

  /** The word read as a two's complement number. */
  function Signed(w: Word): int {
    if w >= SIGN then w - WRAP else w
  }

  // ----- Conditions

  datatype Flags = Flags(n: bool, z: bool, c: bool, v: bool)

  datatype Cond = EQ | NE | CS | CC | MI | PL | VS | VC | HI | LS | GE | LT | GT | LE | AL

  predicate Holds(cond: Cond, f: Flags) {
    match cond
    case EQ => f.z
    case NE => !f.z
    case CS => f.c
    case CC => !f.c
    case MI => f.n
    case PL => !f.n
    case VS => f.v
    case VC => !f.v
    case HI => !f.z && f.c
    case LS => f.z || !f.c
    case GE => f.n == f.v
    case LT => f.n != f.v
    case GT => !f.z && f.n == f.v
    case LE => f.z || f.n != f.v
    case AL => true
  }

  /** The four condition bits as the table's index, and back. */
  function Index(f: Flags): (i: nat)
    ensures i < 16
  {
    (if f.n then 8 else 0) + (if f.z then 4 else 0) + (if f.c then 2 else 0) + if f.v then 1 else 0
  }

  function FlagsOf(i: nat): Flags {
    Flags(i / 8 % 2 == 1, i / 4 % 2 == 1, i / 2 % 2 == 1, i % 2 == 1)
  }

  lemma FlagsOfIndex(f: Flags)
    ensures FlagsOf(Index(f)) == f
  {
  }

  // ----- Arithmetic

  datatype Operation = SUB | SBC | CMP | RSB | RSC | ADD | ADC | CMN

  /** The exact value that the operation computes, read unsigned. */
  function Exact(op: Operation, a: int, b: int, carry: bool): int {
    match op
    case SUB => a - b
    case CMP => a - b
    case SBC => a - b - if carry then 0 else 1
    case RSB => b - a
    case RSC => b - a - if carry then 0 else 1
    case ADD => a + b
    case CMN => a + b
    case ADC => a + b + if carry then 1 else 0
  }

  predicate Adds(op: Operation) {
    op == ADD || op == ADC || op == CMN
  }

  predicate Compares(op: Operation) {
    op == CMP || op == CMN
  }

  /** The flags that the operation has to set: C says that an addition carries out of the word or
    * that a subtraction does not borrow, V that the signed result does not fit. */
  function FlagsAfter(op: Operation, a: Word, b: Word, carry: bool): Flags {
    var exact, signed := Exact(op, a, b, carry), Exact(op, Signed(a), Signed(b), carry);
    Flags(Signed(Wrap(exact)) < 0, Wrap(exact) == 0, if Adds(op) then exact >= WRAP else exact >= 0,
          !(-SIGN <= signed < SIGN))
  }

  // ----- What conditions mean

  /** What the condition says about two compared words. */
  predicate Compared(cond: Cond, a: Word, b: Word) {
    match cond
    case EQ => a == b
    case NE => a != b
    case CS => a >= b
    case CC => a < b
    case HI => a > b
    case LS => a <= b
    case GE => Signed(a) >= Signed(b)
    case LT => Signed(a) < Signed(b)
    case GT => Signed(a) > Signed(b)
    case LE => Signed(a) <= Signed(b)
    case MI => Signed(Wrap(a - b)) < 0
    case PL => Signed(Wrap(a - b)) >= 0
    case VS => !(-SIGN <= Signed(a) - Signed(b) < SIGN)
    case VC => -SIGN <= Signed(a) - Signed(b) < SIGN
    case AL => true
  }

  lemma WrapOnce(x: int)
    requires -WRAP <= x < 2 * WRAP
    ensures Wrap(x) == if x < 0 then x + WRAP else if x < WRAP then x else x - WRAP
  {
  }

  /** After comparing any two words, under any flags, every condition is the comparison it is named
    * after. */
  lemma CompareDecides(cond: Cond, a: Word, b: Word, carry: bool)
    ensures Holds(cond, FlagsAfter(CMP, a, b, carry)) <==> Compared(cond, a, b)
  {
    WrapOnce(a - b);
  }

  /** Comparing with CMN compares with the negated word. */
  lemma CompareNegatedDecides(a: Word, b: Word, carry: bool)
    ensures var f := FlagsAfter(CMN, a, b, carry);
      && (Holds(EQ, f) <==> Wrap(a + b) == 0)
      && (Holds(GE, f) <==> Signed(a) >= -Signed(b)) && (Holds(LT, f) <==> Signed(a) < -Signed(b))
  {
    WrapOnce(a + b);
  }

  /** The reverse subtractions are subtractions with the operands exchanged, flags included. */
  lemma ReverseSubtracts(a: Word, b: Word, carry: bool)
    ensures Exact(RSB, a, b, carry) == Exact(SUB, b, a, carry) && FlagsAfter(RSB, a, b, carry) == FlagsAfter(SUB, b, a, carry)
    ensures Exact(RSC, a, b, carry) == Exact(SBC, b, a, carry) && FlagsAfter(RSC, a, b, carry) == FlagsAfter(SBC, b, a, carry)
  {
  }

  /** Two words read as one number. */
  function Wide(high: Word, low: Word): int {
    high * WRAP + low
  }

  function WideSigned(high: Word, low: Word): int {
    Signed(high) * WRAP + low
  }

  /** ADD of the low words and ADC of the high ones add wide numbers. */
  lemma WideAddition(ah: Word, al: Word, bh: Word, bl: Word, carry: bool)
    ensures var f := FlagsAfter(ADD, al, bl, carry);
      var low, high := Wrap(Exact(ADD, al, bl, carry)), Wrap(Exact(ADC, ah, bh, f.c));
      Wide(high, low) == Wide(ah, al) + Wide(bh, bl) - (if FlagsAfter(ADC, ah, bh, f.c).c then WRAP * WRAP else 0)
  {
    WrapOnce(al + bl);
    WrapOnce(ah + bh + if al + bl >= WRAP then 1 else 0);
  }

  /** SUB of the low words and SBC of the high ones subtract wide numbers, and leave the flags of a
    * wide comparison. */
  lemma WideSubtraction(ah: Word, al: Word, bh: Word, bl: Word, carry: bool)
    ensures var f := FlagsAfter(SUB, al, bl, carry);
      var low, high, g := Wrap(Exact(SUB, al, bl, carry)), Wrap(Exact(SBC, ah, bh, f.c)), FlagsAfter(SBC, ah, bh, f.c);
      && Wide(high, low) == Wide(ah, al) - Wide(bh, bl) + (if g.c then 0 else WRAP * WRAP)
      && (Holds(CS, g) <==> Wide(ah, al) >= Wide(bh, bl))
      && (Holds(GE, g) <==> WideSigned(ah, al) >= WideSigned(bh, bl))
      && (Holds(LT, g) <==> WideSigned(ah, al) < WideSigned(bh, bl))
  {
    WrapOnce(al - bl);
    WrapOnce(ah - bh - if al - bl >= 0 then 0 else 1);
  }

  // ----- Block transfers

  /** Registers, memory and program counter. */
  datatype Machine = Machine(registers: seq<Word>, memory: map<Word, Word>, pc: Word)

  const PC := 15

  /** The instruction's fields. */
  datatype BlockTransfer = BlockTransfer(load: bool, preIndex: bool, up: bool, writeBack: bool, loadPsr: bool, base: nat, list: nat)

  function Pow2(n: nat): (p: nat)
    ensures p > 0
  {
    if n == 0 then 1 else 2 * Pow2(n - 1)
  }

  /** The registers of the list, whose lowest bit stands for register `rd`. */
  function Listed(list: nat, rd: nat): seq<nat>
    decreases list
  {
    if list == 0 then [] else (if list % 2 == 1 then [rd] else []) + Listed(list / 2, rd + 1)
  }

  /** The list names registers below 16, in ascending order. */
  lemma {:induction false} ListedRegisters(list: nat, rd: nat)
    requires rd <= 16 && list < Pow2(16 - rd)
    ensures var r := Listed(list, rd);
      && |r| <= 16 - rd && (forall i :: 0 <= i < |r| ==> rd <= r[i] < 16)
      && (forall i, j :: 0 <= i < j < |r| ==> r[i] < r[j])
    decreases list
  {
    if list != 0 {
      assert rd < 16;
      ListedRegisters(list / 2, rd + 1);
    }
  }

  function StartAddress(t: BlockTransfer, address: Word, num: nat): Word {
    Wrap(address + if t.up then (if t.preIndex then 4 else 0) else (if t.preIndex then 0 else 4) - 4 * num)
  }

  function BaseAfter(t: BlockTransfer, address: Word, num: nat): Word {
    Wrap(if t.up then address + 4 * num else address - 4 * num)
  }

  datatype Execution = Execution(machine: Machine, ok: bool)

  /** Stores word by word; an address without memory ends it. */
  function StoreAll(m: Machine, registers: seq<nat>, address: Word): (e: Execution)
    requires forall i :: 0 <= i < |registers| ==> registers[i] < |m.registers|
    ensures |e.machine.registers| == |m.registers|
    decreases registers
  {
    if registers == [] then Execution(m, true)
    else if address !in m.memory then Execution(m, false)
    else StoreAll(m.(memory := m.memory[address := m.registers[registers[0]]]), registers[1..], Wrap(address + 4))
  }

  function Loaded(m: Machine, rd: nat, value: Word): Machine
    requires rd < |m.registers|
  {
    m.(registers := m.registers[rd := value], pc := if rd == PC then value else m.pc)
  }

  function LoadAll(m: Machine, registers: seq<nat>, address: Word): (e: Execution)
    requires forall i :: 0 <= i < |registers| ==> registers[i] < |m.registers|
    ensures |e.machine.registers| == |m.registers|
    decreases registers
  {
    if registers == [] then Execution(m, true)
    else if address !in m.memory then Execution(m, false)
    else LoadAll(Loaded(m, registers[0], m.memory[address]), registers[1..], Wrap(address + 4))
  }

  predicate Encodable(m: Machine, t: BlockTransfer) {
    |m.registers| == 17 && t.base < 16 && t.list < Pow2(16)
  }

  /** A whole block transfer. */
  function Transfer(m: Machine, t: BlockTransfer): (e: Execution)
    requires Encodable(m, t)
    ensures |e.machine.registers| == 17
  {
    ListedRegisters(t.list, 0);
    var registers, address := Listed(t.list, 0), m.registers[t.base];
    var e := if t.load then LoadAll(m, registers, StartAddress(t, address, |registers|))
             else StoreAll(m, registers, StartAddress(t, address, |registers|));
    if e.ok && t.loadPsr then e.(ok := false)
    else if e.ok && t.writeBack then e.(machine := e.machine.(registers := e.machine.registers[t.base := BaseAfter(t, address, |registers|)]))
    else e
  }

  function Address(start: Word, i: nat): Word {
    Wrap(start + 4 * i)
  }

  lemma AddressStep(start: Word, i: nat)
    ensures Address(Wrap(start + 4), i) == Address(start, i + 1)
  {
  }

  lemma AddressesDiffer(start: Word, i: nat, j: nat)
    requires i < j < i + 0x100
    ensures Address(start, i) != Address(start, j)
  {
  }

  lemma {:induction false} StoredAt(m: Machine, registers: seq<nat>, start: Word)
    requires (forall i :: 0 <= i < |registers| ==> registers[i] < |m.registers|) && |registers| < 0x100
    requires StoreAll(m, registers, start).ok
    ensures var m' := StoreAll(m, registers, start).machine;
      && m'.registers == m.registers && m'.pc == m.pc && m'.memory.Keys == m.memory.Keys
      && (forall i: nat :: i < |registers| ==> Address(start, i) in m.memory && m'.memory[Address(start, i)] == m.registers[registers[i]])
      && (forall a :: a in m.memory && (forall i: nat :: i < |registers| ==> a != Address(start, i)) ==> m'.memory[a] == m.memory[a])
    decreases registers
  {
    if registers != [] {
      var m1 := m.(memory := m.memory[start := m.registers[registers[0]]]);
      var rest, next := registers[1..], Wrap(start + 4);
      var m' := StoreAll(m, registers, start).machine;
      StoredAt(m1, rest, next);
      assert Address(start, 0) == start;
      forall i: nat | i < |registers| ensures Address(start, i) in m.memory && m'.memory[Address(start, i)] == m.registers[registers[i]] {
        if i == 0 {
          forall k: nat | k < |rest| ensures start != Address(next, k) {
            AddressStep(start, k);
            AddressesDiffer(start, 0, k + 1);
          }
        } else {
          AddressStep(start, i - 1);
        }
      }
      forall a | a in m.memory && (forall i: nat :: i < |registers| ==> a != Address(start, i)) ensures m'.memory[a] == m.memory[a] {
        assert a != Address(start, 0);
        forall k: nat | k < |rest| ensures a != Address(next, k) {
          AddressStep(start, k);
          assert a != Address(start, k + 1);
        }
      }
    }
  }

  lemma {:induction false} LoadedFrom(m: Machine, registers: seq<nat>, start: Word)
    requires (forall i :: 0 <= i < |registers| ==> registers[i] < |m.registers|)
    requires forall i, j :: 0 <= i < j < |registers| ==> registers[i] != registers[j]
    requires forall i: nat :: i < |registers| ==> Address(start, i) in m.memory
    ensures var e := LoadAll(m, registers, start);
      && e.ok && e.machine.memory == m.memory && |e.machine.registers| == |m.registers|
      && (forall i: nat :: i < |registers| ==> e.machine.registers[registers[i]] == m.memory[Address(start, i)])
      && (forall r :: 0 <= r < |m.registers| && r !in registers ==> e.machine.registers[r] == m.registers[r])
      && e.machine.pc == (if PC in registers then e.machine.registers[PC] else m.pc)
    decreases registers
  {
    if registers != [] {
      assert Address(start, 0) == start;
      var m1 := Loaded(m, registers[0], m.memory[start]);
      var rest, next := registers[1..], Wrap(start + 4);
      forall i: nat | i < |rest| ensures Address(next, i) in m1.memory && Address(next, i) == Address(start, i + 1) {
        AddressStep(start, i);
        assert Address(start, i + 1) in m.memory;
      }
      LoadedFrom(m1, rest, next);
      assert forall r :: r in registers <==> r == registers[0] || r in rest;
      assert registers[0] !in rest;
    }
  }

  /** The mode that undoes a store: the other direction, indexing on the other side. */
  function Dual(t: BlockTransfer): BlockTransfer {
    t.(load := !t.load, preIndex := !t.preIndex, up := !t.up)
  }

  lemma WrapShifts(x: int, y: int)
    ensures Wrap(Wrap(x) + y) == Wrap(x + y)
  {
  }

  lemma DualAddresses(t: BlockTransfer, address: Word, num: nat)
    ensures StartAddress(Dual(t), BaseAfter(t, address, num), num) == StartAddress(t, address, num)
    ensures BaseAfter(Dual(t), BaseAfter(t, address, num), num) == address
  {
    var moved := if t.up then address + 4 * num else address - 4 * num;
    WrapShifts(moved, if t.up then (if t.preIndex then 4 else 0) - 4 * num else if t.preIndex then 0 else 4);
    WrapShifts(moved, if t.up then -4 * num else 4 * num);
    hide Wrap;
    WrapIsWord(address);
  }

  /** The word next to the base is at the base with post-indexing, and one step away from it, in the
    * direction of the transfer, with pre-indexing. */
  lemma NearestWord(t: BlockTransfer, address: Word, num: nat)
    requires 0 < num
    ensures Address(StartAddress(t, address, num), if t.up then 0 else num - 1)
      == if !t.preIndex then address else if t.up then Wrap(address + 4) else Wrap(address - 4)
  {
    WrapShifts(address + (if t.up then (if t.preIndex then 4 else 0) else (if t.preIndex then 0 else 4) - 4 * num),
               if t.up then 0 else 4 * (num - 1));
    hide Wrap;
    WrapIsWord(address);
  }

  lemma WrapIsWord(w: Word)
    ensures Wrap(w) == w
  {
  }

  /** Storing and loading in the dual mode, whatever happens to the listed registers in between:
    * every listed register and the base have their old values, and no other one changes. */
  lemma StoreLoadRestores(m: Machine, t: BlockTransfer, m2: Machine)
    requires Encodable(m, t) && !t.load && t.writeBack && t.base !in Listed(t.list, 0) && PC !in Listed(t.list, 0)
    requires Transfer(m, t).ok && Encodable(m2, t)
    requires m2.memory == Transfer(m, t).machine.memory && m2.registers[t.base] == Transfer(m, t).machine.registers[t.base]
    ensures var back := Transfer(m2, Dual(t));
      && back.ok && back.machine.memory == m2.memory && back.machine.pc == m2.pc && |back.machine.registers| == 17
      && forall r :: 0 <= r < 17 ==>
        back.machine.registers[r] == if r == t.base || r in Listed(t.list, 0) then m.registers[r] else m2.registers[r]
  {
    ListedRegisters(t.list, 0);
    var registers, address := Listed(t.list, 0), m.registers[t.base];
    var start := StartAddress(t, address, |registers|);
    StoredAt(m, registers, start);
    DualAddresses(t, address, |registers|);
    LoadedFrom(m2, registers, start);
    forall r | r in registers ensures Transfer(m2, Dual(t)).machine.registers[r] == m.registers[r] {
      var i: nat :| i < |registers| && registers[i] == r;
    }
  }
}
