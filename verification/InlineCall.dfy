/** Calls: a method runs in a frame of its own, or inlined in what is left of the caller's. */
module InlineCalls {

  datatype Option<T> = None | Some(value: T)

  /** A stack slot; small numbers are widened when they are loaded. */
  datatype Value = Small(number: int) | Wide(number: int) | Other(tag: int)

  function Promote(v: Value): (r: Value)
    ensures !r.Small? && (!v.Small? ==> r == v) && (v.Small? ==> r == Wide(v.number))
  {
    if v.Small? then Wide(v.number) else v
  }

  datatype Method = Method(numArgs: nat, localsInit: seq<Value>, lengthEvalStack: nat, hasResult: bool, entry: nat,
                           hasBody: bool, isStatic: bool, special: bool)

  const NEW_OBJECT_OVERHEAD := 2
  const MINIMUM_STACK := 10

  // ----- What a method body sees and does

  datatype View = View(args: seq<Value>, locals: seq<Value>, stack: seq<Value>)

  /** One instruction.  `Apply` stands for everything that takes operands from the stack and leaves a
    * value, `Clear` for leaving a protected region. */
  datatype Op =
    | LoadArg(i: nat) | StoreArg(i: nat) | LoadLocal(i: nat) | StoreLocal(i: nat)
    | Apply(n: nat, f: seq<Value> -> Value) | Duplicate | Drop | Clear

  predicate Can(v: View, op: Op, depth: nat) {
    match op
    case LoadArg(i) => i < |v.args| && |v.stack| < depth
    case StoreArg(i) => i < |v.args| && v.stack != []
    case LoadLocal(i) => i < |v.locals| && |v.stack| < depth
    case StoreLocal(i) => i < |v.locals| && v.stack != []
    case Apply(n, f) => n <= |v.stack| && |v.stack| - n < depth
    case Duplicate => v.stack != [] && |v.stack| < depth
    case Drop => v.stack != []
    case Clear => true
  }

  function Below(stack: seq<Value>, n: nat): seq<Value>
    requires n <= |stack|
  {
    stack[..|stack| - n]
  }

  function Do(v: View, op: Op, depth: nat): View
    requires Can(v, op, depth)
  {
    match op
    case LoadArg(i) => v.(stack := v.stack + [Promote(v.args[i])])
    case StoreArg(i) => v.(args := v.args[i := v.stack[|v.stack| - 1]], stack := Below(v.stack, 1))
    case LoadLocal(i) => v.(stack := v.stack + [Promote(v.locals[i])])
    case StoreLocal(i) => v.(locals := v.locals[i := v.stack[|v.stack| - 1]], stack := Below(v.stack, 1))
    case Apply(n, f) => v.(stack := Below(v.stack, n) + [f(v.stack[|v.stack| - n..])])
    case Duplicate => v.(stack := v.stack + [v.stack[|v.stack| - 1]])
    case Drop => v.(stack := Below(v.stack, 1))
    case Clear => v.(stack := [])
  }

  /** The instructions, executed in order, stay within the declared stack depth. */
  predicate CanAll(v: View, ops: seq<Op>, depth: nat)
    decreases ops
  {
    ops == [] || (Can(v, ops[0], depth) && CanAll(Do(v, ops[0], depth), ops[1..], depth))
  }

  function DoAll(v: View, ops: seq<Op>, depth: nat): View
    requires CanAll(v, ops, depth)
    decreases ops
  {
    if ops == [] then v else DoAll(Do(v, ops[0], depth), ops[1..], depth)
  }

  function Entered(stack: seq<Value>, callee: Method): View
    requires callee.numArgs <= |stack|
  {
    View(stack[|stack| - callee.numArgs..], callee.localsInit, [])
  }

  /** The body of a call that ends in a return: it has a result if it should. */
  predicate Body(stack: seq<Value>, callee: Method, ops: seq<Op>) {
    && callee.numArgs <= |stack| && CanAll(Entered(stack, callee), ops, callee.lengthEvalStack)
    && (callee.hasResult ==> DoAll(Entered(stack, callee), ops, callee.lengthEvalStack).stack != [])
  }

  /** What a call does to the evaluation stack of its caller: the arguments are popped, and the
    * promoted result is pushed unless an exception is on its way. */
  function Called(stack: seq<Value>, callee: Method, ops: seq<Op>, exception: bool): seq<Value>
    requires Body(stack, callee, ops)
  {
    var top := DoAll(Entered(stack, callee), ops, callee.lengthEvalStack).stack;
    Below(stack, callee.numArgs) + if callee.hasResult && !exception then [Promote(top[|top| - 1])] else []
  }

  // ----- Frames

  /** What an inlined call overwrites and its return restores. */
  datatype Backup = Backup(ip: nat, ipStart: nat, locals: int, argSlots: array<Value>, arguments: int, call: Method,
                           evalStack: int, evalPos: int)

  /** `n` slots from `lo` on. */
  ghost function Slice(m: seq<Value>, lo: int, n: int): (r: seq<Value>)
    requires 0 <= lo && 0 <= n && lo + n <= |m|
    ensures |r| == n
  {
    m[lo..lo + n]
  }

  lemma SliceKept(m: seq<Value>, m': seq<Value>, lo: int, n: int)
    requires 0 <= lo && 0 <= n && lo + n <= |m| == |m'|
    requires forall i :: lo <= i < lo + n ==> m'[i] == m[i]
    ensures Slice(m', lo, n) == Slice(m, lo, n)
  {
  }

  lemma SliceGrew(m: seq<Value>, m': seq<Value>, lo: int, n: int, v: Value)
    requires 0 <= lo && 0 <= n && lo + n < |m| == |m'| && m'[lo + n] == v
    requires forall i :: lo <= i < lo + n ==> m'[i] == m[i]
    ensures Slice(m', lo, n + 1) == Slice(m, lo, n) + [v]
  {
  }

  lemma SliceSet(m: seq<Value>, m': seq<Value>, lo: int, n: int, k: int, v: Value)
    requires 0 <= lo && 0 <= k < n && lo + n <= |m| == |m'| && m'[lo + k] == v
    requires forall i :: lo <= i < lo + n && i != lo + k ==> m'[i] == m[i]
    ensures Slice(m', lo, n) == Slice(m, lo, n)[k := v]
  {
  }

  lemma SliceTop(m: seq<Value>, lo: int, n: int, k: nat)
    requires 0 <= lo && k <= n && lo + n <= |m|
    ensures m[lo + n - k..lo + n] == Slice(m, lo, n)[n - k..]
  {
  }

  lemma SliceShrinks(m: seq<Value>, lo: int, n: int, k: nat)
    requires 0 <= lo && k <= n && lo + n <= |m|
    ensures Slice(m, lo, n - k) == Below(Slice(m, lo, n), k)
  {
  }

  /** The layout of a frame: arguments, locals and operands of the running method lie within their
    * memory and do not overlap, and the operands still to come have room. */
  predicate Layout(length: int, argLength: int, shared: bool, plain: bool, arguments: int, numArgs: nat, locals: int,
                   numLocals: nat, evalStack: int, evalStackEnd: int, base: int, depth: nat, evalPos: int)
  {
    && evalStack - 1 <= base <= evalStack && base <= evalPos < evalStackEnd <= length && 0 <= evalStack
    && depth < evalStackEnd - base
    && 0 <= arguments && arguments + numArgs <= argLength
    && (shared ==> arguments + numArgs <= evalStack && arguments + numArgs <= base + 1
                   && (arguments + numArgs <= locals || locals + numLocals <= arguments))
    && 0 <= locals && locals + numLocals <= length && (locals + numLocals <= evalStack || evalStackEnd <= locals)
    && (plain ==> locals + numLocals <= evalStack)
  }

  /** The layout of an inlined call: the operands above the caller's, the locals at the end. */
  lemma InlineLayout(length: int, argLength: int, shared: bool, arguments: int, numArgs: nat, locals: int, numLocals: nat,
                     evalStack: int, evalStackEnd: int, base: int, depth: nat, evalPos: int, callee: Method)
    requires Layout(length, argLength, shared, true, arguments, numArgs, locals, numLocals, evalStack, evalStackEnd, base, depth, evalPos)
    requires callee.numArgs <= evalPos - base
    requires evalStackEnd - evalPos > callee.numArgs + |callee.localsInit| + callee.lengthEvalStack + 2
    ensures var callArgs, end := evalPos + 1 - callee.numArgs, evalStackEnd - |callee.localsInit|;
      Layout(length, length, true, false, callArgs, callee.numArgs, end, |callee.localsInit|, evalPos + 1, end, evalPos + 1,
             callee.lengthEvalStack, evalPos + 1)
    ensures callee.numArgs > 0 ==>
      evalPos + 1 + callee.lengthEvalStack + NEW_OBJECT_OVERHEAD < evalStackEnd - |callee.localsInit|
  {
  }

  /** The topmost operands are the arguments of the method that is entered. */
  lemma ArgumentsOnTop(m: seq<Value>, m': seq<Value>, top: int, n: nat, args: nat)
    requires args <= n && 0 <= top + 1 - n && top < |m| == |m'|
    requires forall i :: 0 <= i <= top ==> m'[i] == m[i]
    ensures var stack := Slice(m, top + 1 - n, n); Slice(m', top + 1 - args, args) == stack[|stack| - args..]
  {
  }

  class Frame {
    const caller: Frame?
    const slots: array<Value>            // m_extension: the locals and the evaluation stack
    var argSlots: array<Value>           // where m_arguments points into
    var arguments: int
    var locals: int
    var evalStack: int
    var evalStackPos: int
    var evalStackEnd: int
    var call: Method
    var ip: nat
    var ipStart: nat
    var inlineFrame: Option<Backup>
    var resultExpected: bool             // c_InlineMethodHasReturnValue
    ghost var base: int                  // the slot below the first operand of the running method

    ghost predicate Shape(evalPos: int)
      reads this
    {
      && (inlineFrame.None? ==> !resultExpected)
      && Layout(slots.Length, argSlots.Length, argSlots == slots, inlineFrame.None?, arguments, call.numArgs, locals,
                |call.localsInit|, evalStack, evalStackEnd, base, call.lengthEvalStack, evalPos)
    }

    ghost function Seen(evalPos: int): View
      requires Shape(evalPos)
      reads this, slots, argSlots
    {
      View(Slice(argSlots[..], arguments, call.numArgs), Slice(slots[..], locals, |call.localsInit|),
           Slice(slots[..], base + 1, evalPos - base))
    }

    /** The slots that belong to the running method. */
    ghost predicate Own(i: int)
      reads this
    {
      || evalStack <= i < evalStackEnd || locals <= i < locals + |call.localsInit|
      || (argSlots == slots && arguments <= i < arguments + call.numArgs)
    }

    twostate predicate SameLayout()
      reads this
    {
      && argSlots == old(argSlots) && arguments == old(arguments) && locals == old(locals)
      && evalStack == old(evalStack) && evalStackEnd == old(evalStackEnd) && call == old(call)
      && ipStart == old(ipStart) && inlineFrame == old(inlineFrame) && resultExpected == old(resultExpected)
    }

    function Saved(pThis: int, ip: nat): Backup
      reads this
    {
      Backup(ip, ipStart, locals, argSlots, arguments, call, evalStack, pThis)
    }

    /** The frame's fields now describe an inlined method. */
    method Inline(callee: Method, pThis: int, evalPos: int, ip: nat)
      requires Shape(evalPos) && inlineFrame.None? && callee.numArgs <= evalPos - base && pThis == evalPos + 1 - callee.numArgs
      requires evalStackEnd - evalPos > callee.numArgs + |callee.localsInit| + callee.lengthEvalStack + 2
      modifies this
      ensures Shape(evalPos + 1) && base == evalStack == evalPos + 1
      ensures call == callee && argSlots == slots && arguments == pThis
      ensures evalStackEnd == locals == old(evalStackEnd) - |callee.localsInit|
      ensures resultExpected == callee.hasResult && inlineFrame == Some(old(Saved(pThis, ip)))
      ensures this.ip == ipStart == callee.entry && evalStackPos == evalPos + 2
    {
      hide Layout;
      InlineLayout(slots.Length, argSlots.Length, argSlots == slots, arguments, call.numArgs, locals, |call.localsInit|,
                   evalStack, evalStackEnd, base, call.lengthEvalStack, evalPos, callee);
      Save(pThis, ip);
      Redirect(callee, pThis, evalPos + 1);
    }

    method Save(pThis: int, ip: nat)
      modifies this`inlineFrame
      ensures inlineFrame == Some(old(Saved(pThis, ip)))
    {
      inlineFrame := Some(Backup(ip, ipStart, locals, argSlots, arguments, call, evalStack, pThis));
    }

    method Redirect(callee: Method, pThis: int, top: int)
      modifies this`argSlots, this`arguments, this`locals, this`call, this`evalStackEnd, this`evalStack, this`evalStackPos,
               this`ipStart, this`ip, this`base, this`resultExpected
      ensures base == evalStack == top && call == callee && argSlots == slots && arguments == pThis
      ensures evalStackEnd == locals == old(evalStackEnd) - |callee.localsInit| && resultExpected == callee.hasResult
      ensures ip == ipStart == callee.entry && evalStackPos == top + 1
    {
      argSlots, arguments := slots, pThis;
      locals := evalStackEnd - |callee.localsInit|;
      call := callee;
      evalStackEnd := locals;
      evalStack := top;
      evalStackPos := top + 1;
      ipStart := callee.entry;
      ip := callee.entry;
      base := top;
      resultExpected := callee.hasResult;
    }

    /** Push: a frame of its own for a call. */
    constructor (caller: Frame, callee: Method)
      requires callee.numArgs <= caller.evalStackPos <= caller.slots.Length
      ensures this.caller == caller && fresh(slots) && call == callee && inlineFrame == None && ipStart == callee.entry == ip
      ensures argSlots == caller.slots && arguments == caller.evalStackPos - callee.numArgs
      ensures Shape(evalStackPos - 1) && Seen(evalStackPos - 1).locals == callee.localsInit && Seen(evalStackPos - 1).stack == []
    {
      var sizeLocals := |callee.localsInit|;
      var sizeEvalStack := callee.lengthEvalStack + NEW_OBJECT_OVERHEAD + 1;
      if sizeLocals + sizeEvalStack < MINIMUM_STACK {
        sizeEvalStack := MINIMUM_STACK - sizeLocals;
      }
      var memory := new Value[sizeLocals + sizeEvalStack](i => if 0 <= i < |callee.localsInit| then callee.localsInit[i] else Other(0));
      this.caller := caller;
      slots := memory;
      argSlots, arguments := caller.slots, caller.evalStackPos - callee.numArgs;
      locals, evalStack, evalStackPos, evalStackEnd := 0, sizeLocals, sizeLocals, sizeLocals + sizeEvalStack;
      call, ip, ipStart := callee, callee.entry, callee.entry;
      inlineFrame, resultExpected := None, false;
      base := sizeLocals - 1;
      new;
      assert slots[0..sizeLocals] == callee.localsInit;
    }
  }

  /** The arguments are gone, and the result is on top. */
  lemma ResultPushed(m: seq<Value>, m': seq<Value>, lo: int, n: int, args: nat, result: Option<Value>)
    requires 0 <= lo && args <= n && lo + n <= |m| == |m'|
    requires forall i :: 0 <= i < lo + n - args ==> m'[i] == m[i]
    requires result.Some? ==> lo + n - args < |m'| && m'[lo + n - args] == result.value
    ensures Slice(m', lo, n - args + if result.Some? then 1 else 0)
      == Below(Slice(m, lo, n), args) + if result.Some? then [result.value] else []
  {
  }

  /** An inlined method starts with its arguments, its initial locals and no operands. */
  lemma InlinedSees(f: Frame, top: int, callee: Method, m: seq<Value>, n: nat)
    requires f.Shape(top + 1) && f.base == top + 1 && f.argSlots == f.slots && f.call == callee
    requires f.arguments == top + 1 - callee.numArgs && callee.numArgs <= n <= top + 1 && |m| == f.slots.Length
    requires forall i :: 0 <= i <= top ==> f.slots[i] == m[i]
    requires Slice(f.slots[..], f.locals, |callee.localsInit|) == callee.localsInit
    ensures f.Seen(top + 1) == Entered(Slice(m, top + 1 - n, n), callee)
  {
    hide Slice;
    ArgumentsOnTop(m, f.slots[..], top, n, callee.numArgs);
  }

  lemma OperandsSlice(f: Frame, top: int)
    requires f.Shape(top)
    ensures 0 <= f.base + 1 <= top + 1 <= f.slots.Length && top < f.evalStackEnd <= f.slots.Length
    ensures f.Seen(top).stack == Slice(f.slots[..], f.base + 1, top - f.base)
  {
  }

  datatype Outcome = Done | NotSupported

  class Interpreter {
    var stack: Frame
    var evalPos: int                     // the slot of the topmost operand
    var ip: nat
    var buffers: nat                     // free inline buffers of the event cache

    constructor (stack: Frame, buffers: nat)
      ensures this.stack == stack && this.buffers == buffers && ip == stack.ip && evalPos == stack.evalStackPos - 1
    {
      this.stack, this.buffers, ip, evalPos := stack, buffers, stack.ip, stack.evalStackPos - 1;
    }

    /** The interpreter is about to fetch the first instruction of the running method. */
    predicate AtEntry()
      reads this, stack
    {
      ip == stack.ip == stack.ipStart == stack.call.entry
    }

    ghost predicate Ready()
      reads this`stack, this`evalPos, stack
    {
      stack.Shape(evalPos)
    }

    ghost function Seen(): View
      requires Ready()
      reads this`stack, this`evalPos, stack, stack.slots, stack.argSlots
    {
      stack.Seen(evalPos)
    }

    /** Nothing but the running method's own slots has changed. */
    twostate predicate OthersKept()
      reads this, stack, stack.slots, stack.argSlots
    {
      && stack == old(stack) && buffers == old(buffers) && stack.SameLayout()
      && (forall i :: 0 <= i < stack.slots.Length && !stack.Own(i) ==> stack.slots[i] == old(stack.slots[i]))
      && (stack.argSlots != stack.slots ==>
            forall i :: 0 <= i < stack.argSlots.Length && !(stack.arguments <= i < stack.arguments + stack.call.numArgs) ==>
              stack.argSlots[i] == old(stack.argSlots[i]))
    }

    method Push(v: Value)
      requires Ready() && |Seen().stack| < stack.call.lengthEvalStack
      modifies this`evalPos, stack.slots
      ensures Ready() && OthersKept() && Seen() == old(Seen()).(stack := old(Seen()).stack + [v])
    {
      hide Slice;
      ghost var f, m, a := stack, stack.slots[..], stack.argSlots[..];
      evalPos := evalPos + 1;
      stack.slots[evalPos] := v;
      SliceKept(m, f.slots[..], f.locals, |f.call.localsInit|);
      SliceKept(a, f.argSlots[..], f.arguments, f.call.numArgs);
      SliceGrew(m, f.slots[..], f.base + 1, evalPos - 1 - f.base, v);
    }

    method Pop(n: nat)
      requires Ready() && n <= |Seen().stack|
      modifies this`evalPos
      ensures Ready() && OthersKept() && Seen() == old(Seen()).(stack := Below(old(Seen()).stack, n))
    {
      hide Slice;
      SliceShrinks(stack.slots[..], stack.base + 1, evalPos - stack.base, n);
      evalPos := evalPos - n;
    }

    method SetArg(i: nat, v: Value)
      requires Ready() && i < |Seen().args|
      modifies stack.argSlots
      ensures Ready() && OthersKept() && Seen() == old(Seen()).(args := old(Seen()).args[i := v])
    {
      hide Slice;
      ghost var f, m, a := stack, stack.slots[..], stack.argSlots[..];
      stack.argSlots[stack.arguments + i] := v;
      SliceSet(a, f.argSlots[..], f.arguments, f.call.numArgs, i, v);
      SliceKept(m, f.slots[..], f.locals, |f.call.localsInit|);
      SliceKept(m, f.slots[..], f.base + 1, evalPos - f.base);
    }

    method SetLocal(i: nat, v: Value)
      requires Ready() && i < |Seen().locals|
      modifies stack.slots
      ensures Ready() && OthersKept() && Seen() == old(Seen()).(locals := old(Seen()).locals[i := v])
    {
      hide Slice;
      ghost var f, m, a := stack, stack.slots[..], stack.argSlots[..];
      stack.slots[stack.locals + i] := v;
      SliceSet(m, f.slots[..], f.locals, |f.call.localsInit|, i, v);
      SliceKept(a, f.argSlots[..], f.arguments, f.call.numArgs);
      SliceKept(m, f.slots[..], f.base + 1, evalPos - f.base);
    }

    method Clear()
      requires Ready()
      modifies this`evalPos, stack`base
      ensures Ready() && OthersKept() && Seen() == old(Seen()).(stack := [])
    {
      evalPos := stack.evalStack - 1;
      stack.base := stack.evalStack - 1;
    }

    method Top() returns (v: Value)
      requires Ready() && Seen().stack != []
      ensures v == Seen().stack[|Seen().stack| - 1]
    {
      v := stack.slots[evalPos];
    }

    method Operands(n: nat) returns (values: seq<Value>)
      requires Ready() && n <= |Seen().stack|
      ensures values == Seen().stack[|Seen().stack| - n..]
    {
      hide Slice;
      SliceTop(stack.slots[..], stack.base + 1, evalPos - stack.base, n);
      values := stack.slots[evalPos + 1 - n..evalPos + 1];
      assert values == stack.slots[..][evalPos + 1 - n..evalPos + 1];
    }

    method Arg(i: nat) returns (v: Value)
      requires Ready() && i < |Seen().args|
      ensures v == Seen().args[i]
    {
      v := stack.argSlots[stack.arguments + i];
    }

    method Local(i: nat) returns (v: Value)
      requires Ready() && i < |Seen().locals|
      ensures v == Seen().locals[i]
    {
      v := stack.slots[stack.locals + i];
    }

    /** A value goes from the stack into an argument or a local. */
    method Store(op: Op)
      requires Ready() && (op.StoreArg? || op.StoreLocal?) && Can(Seen(), op, stack.call.lengthEvalStack)
      modifies this`evalPos, stack.slots, stack.argSlots
      ensures Ready() && OthersKept() && Seen() == Do(old(Seen()), op, stack.call.lengthEvalStack)
    {
      hide Interpreter.Ready, Interpreter.Seen;
      var v := Top();
      Pop(1);
      if op.StoreArg? {
        SetArg(op.i, v);
      } else {
        SetLocal(op.i, v);
      }
    }

    /** One instruction of the running method. */
    method Step(op: Op)
      requires Ready() && Can(Seen(), op, stack.call.lengthEvalStack)
      modifies this`evalPos, this`ip, stack`base, stack.slots, stack.argSlots
      ensures Ready() && OthersKept() && Seen() == Do(old(Seen()), op, stack.call.lengthEvalStack)
      ensures ip == old(ip) + 1
    {
      hide Interpreter.Ready, Interpreter.Seen;
      ip := ip + 1;
      match op {
        case LoadArg(i) =>
          var v := Arg(i);
          Push(Promote(v));
        case StoreArg(_) =>
          Store(op);
        case LoadLocal(i) =>
          var v := Local(i);
          Push(Promote(v));
        case StoreLocal(_) =>
          Store(op);
        case Apply(n, f) =>
          var operands := Operands(n);
          Pop(n);
          Push(f(operands));
        case Duplicate =>
          var v := Top();
          Push(v);
        case Drop =>
          Pop(1);
        case Clear =>
          Clear();
      }
    }

    /** The running method from its first instruction up to its return. */
    method RunBody(ops: seq<Op>)
      requires AtEntry() && Ready() && CanAll(Seen(), ops, stack.call.lengthEvalStack)
      modifies this`evalPos, this`ip, stack`base, stack.slots, stack.argSlots
      ensures Ready() && OthersKept() && ip == old(ip) + |ops|
      ensures CanAll(old(Seen()), ops, stack.call.lengthEvalStack)
      ensures Seen() == DoAll(old(Seen()), ops, stack.call.lengthEvalStack)
    {
      hide Interpreter.Ready, Interpreter.Seen, Can, Do;
      ghost var depth := stack.call.lengthEvalStack;
      ghost var v := Seen();
      var k := 0;
      assert ops[0..] == ops;
      while k < |ops|
        invariant 0 <= k <= |ops| && Ready() && OthersKept() && ip == old(ip) + k
        invariant CanAll(Seen(), ops[k..], depth) && DoAll(Seen(), ops[k..], depth) == DoAll(v, ops, depth)
      {
        assert ops[k..][0] == ops[k] && ops[k..][1..] == ops[k + 1..];
        Step(ops[k]);
        k := k + 1;
      }
    }

    /** PushInline takes the call: an instance method with a body, called by a method that does not
      * run inlined itself, for which the rest of the frame and the inline buffers suffice. */
    predicate Inlinable(callee: Method)
      reads this, stack
    {
      && stack.inlineFrame.None?
      && stack.evalStackEnd - evalPos > callee.numArgs + |callee.localsInit| + callee.lengthEvalStack + 2
      && !callee.special && !callee.isStatic && callee.hasBody && buffers > 0
    }

    method InitializeLocals(frame: Frame, locals: seq<Value>)
      requires 0 <= frame.locals && frame.locals + |locals| <= frame.slots.Length
      modifies frame.slots
      ensures Slice(frame.slots[..], frame.locals, |locals|) == locals
      ensures forall i :: 0 <= i < frame.slots.Length && !(frame.locals <= i < frame.locals + |locals|) ==>
        frame.slots[i] == old(frame.slots[i])
    {
      var k := 0;
      while k < |locals|
        invariant 0 <= k <= |locals|
        invariant forall i :: 0 <= i < frame.slots.Length && !(frame.locals <= i < frame.locals + k) ==>
          frame.slots[i] == old(frame.slots[i])
        invariant forall i :: 0 <= i < k ==> frame.slots[frame.locals + i] == locals[i]
      {
        frame.slots[frame.locals + k] := locals[k];
        k := k + 1;
      }
    }

    method PushInline(callee: Method, pThis: int) returns (ok: bool)
      requires Ready() && callee.numArgs <= |Seen().stack| && pThis == evalPos + 1 - callee.numArgs
      modifies this`evalPos, this`ip, this`buffers, stack, stack.slots
      ensures ok <==> old(Inlinable(callee))
      ensures !ok ==> evalPos == old(evalPos) && ip == old(ip) && buffers == old(buffers) && unchanged(stack, stack.slots)
      ensures ok ==> Ready() && Seen() == Entered(old(Seen().stack), callee) && buffers == old(buffers) - 1
      ensures ok ==> stack.call == callee && stack.argSlots == stack.slots && stack.arguments == pThis
      ensures ok ==> stack.evalStack == old(evalPos) + 1 && stack.evalStackEnd == stack.locals == old(stack.evalStackEnd) - |callee.localsInit|
      ensures ok ==> AtEntry() && ip == callee.entry && stack.evalStackPos == evalPos + 1
      ensures ok ==> stack.resultExpected == callee.hasResult && stack.inlineFrame == Some(old(stack.Saved(pThis, ip)))
      ensures forall i :: 0 <= i <= old(evalPos) || old(stack.evalStackEnd) <= i < stack.slots.Length ==>
        stack.slots[i] == old(stack.slots[i])
    {
      if || stack.inlineFrame.Some?
         || stack.evalStackEnd - evalPos <= callee.numArgs + |callee.localsInit| + callee.lengthEvalStack + 2
         || callee.special || callee.isStatic || !callee.hasBody || buffers == 0 {
        return false;
      }
      EnterInline(callee, pThis);
      return true;
    }

    method EnterInline(callee: Method, pThis: int)
      requires Ready() && callee.numArgs <= |Seen().stack| && pThis == evalPos + 1 - callee.numArgs && Inlinable(callee)
      modifies this`evalPos, this`ip, this`buffers, stack, stack.slots
      ensures Ready() && Seen() == Entered(old(Seen().stack), callee) && buffers == old(buffers) - 1
      ensures stack.call == callee && stack.argSlots == stack.slots && stack.arguments == pThis
      ensures stack.evalStack == old(evalPos) + 1 && stack.evalStackEnd == stack.locals == old(stack.evalStackEnd) - |callee.localsInit|
      ensures AtEntry() && ip == callee.entry && stack.evalStackPos == evalPos + 1
      ensures stack.resultExpected == callee.hasResult && stack.inlineFrame == Some(old(stack.Saved(pThis, ip)))
      ensures forall i :: 0 <= i <= old(evalPos) || old(stack.evalStackEnd) <= i < stack.slots.Length ==>
        stack.slots[i] == old(stack.slots[i])
    {
      hide Slice, Layout;
      var frame := stack;
      ghost var m, n, end := frame.slots[..], evalPos - frame.base, evalPos;
      OperandsSlice(frame, end);
      buffers := buffers - 1;
      frame.Inline(callee, pThis, evalPos, ip);
      evalPos := evalPos + 1;
      ip := callee.entry;
      InitializeLocals(frame, callee.localsInit);
      InlinedSees(frame, end, callee, m, n);
    }

    /** CEE_RET of an inlined method. */
    method PopInline(exception: bool)
      requires Ready() && stack.inlineFrame.Some? && stack.resultExpected == stack.call.hasResult
      requires stack.call.hasResult && !exception ==> Seen().stack != []
      requires 0 <= stack.inlineFrame.value.evalPos <= stack.evalStack
      modifies this`evalPos, this`ip, this`buffers, stack, stack.slots
      ensures var b, pThis := old(stack.inlineFrame.value), old(stack.inlineFrame.value.evalPos);
        && stack.argSlots == b.argSlots && stack.arguments == b.arguments && stack.locals == b.locals
        && stack.evalStackEnd == old(stack.evalStackEnd + |stack.call.localsInit|) && stack.call == b.call
        && stack.ip == ip == b.ip && stack.ipStart == b.ipStart && stack.evalStack == b.evalStack
        && stack.base == old(stack.base) && stack.inlineFrame == None && !stack.resultExpected && buffers == old(buffers) + 1
        && stack.evalStackPos == evalPos + 1
        && (if old(stack.call.hasResult) && !exception
            then evalPos == pThis && stack.slots[..] == old(stack.slots[..])[pThis := Promote(old(Seen()).stack[|old(Seen()).stack| - 1])]
            else evalPos == pThis - 1 && stack.slots[..] == old(stack.slots[..]))
    {
      var frame := stack;
      frame.evalStackPos := evalPos;
      var src := frame.evalStackPos;
      RestoreFromInlineStack();
      if frame.resultExpected && !exception {
        frame.slots[frame.evalStackPos] := Promote(frame.slots[src]);
        frame.evalStackPos := frame.evalStackPos + 1;
      }
      buffers := buffers + 1;
      frame.inlineFrame := None;
      frame.resultExpected := false;
      ip := frame.ip;
      evalPos := frame.evalStackPos - 1;
    }

    method RestoreFromInlineStack()
      requires stack.inlineFrame.Some?
      modifies stack`argSlots, stack`arguments, stack`locals, stack`evalStackEnd, stack`call, stack`ip, stack`ipStart,
               stack`evalStack, stack`evalStackPos
      ensures var b := stack.inlineFrame.value;
        && stack.argSlots == b.argSlots && stack.arguments == b.arguments && stack.locals == b.locals
        && stack.evalStackEnd == old(stack.evalStackEnd + |stack.call.localsInit|) && stack.call == b.call
        && stack.ip == b.ip && stack.ipStart == b.ipStart && stack.evalStack == b.evalStack && stack.evalStackPos == b.evalPos
    {
      var f := stack;
      var saved := f.inlineFrame.value;
      f.argSlots, f.arguments := saved.argSlots, saved.arguments;
      f.locals := saved.locals;
      f.evalStackEnd := f.evalStackEnd + |f.call.localsInit|;
      f.call := saved.call;
      f.ip, f.ipStart := saved.ip, saved.ipStart;
      f.evalStack, f.evalStackPos := saved.evalStack, saved.evalPos;
    }

    /** The state of the caller after a call, whichever way it was made. */
    twostate predicate Returned(callee: Method, ops: seq<Op>, exception: bool)
      requires old(Ready()) && Body(old(Seen()).stack, callee, ops)
      reads this, stack, stack.slots, stack.argSlots
    {
      && stack == old(stack) && stack.SameLayout() && stack.base == old(stack.base) && buffers == old(buffers)
      && ip == old(ip) == stack.ip && stack.evalStackPos == evalPos + 1 && Ready()
      && Seen() == old(Seen()).(stack := Called(old(Seen()).stack, callee, ops, exception))
    }

    /** The inlined method up to its return: the caller's operands and what lies behind its frame's
      * evaluation stack stay as they are. */
    method RunInlined(callee: Method, pThis: int, ops: seq<Op>)
      requires Ready() && Body(Seen().stack, callee, ops) && Inlinable(callee) && pThis == evalPos + 1 - callee.numArgs
      modifies this`evalPos, this`ip, this`buffers, stack, stack.slots
      ensures Ready() && Seen() == DoAll(Entered(old(Seen()).stack, callee), ops, callee.lengthEvalStack)
      ensures buffers == old(buffers) - 1 && stack.call == callee && stack.resultExpected == callee.hasResult
      ensures stack.inlineFrame == Some(old(stack.Saved(pThis, ip))) && stack.evalStack == old(evalPos) + 1
      ensures stack.evalStackEnd == old(stack.evalStackEnd) - |callee.localsInit|
      ensures forall i :: 0 <= i < pThis || old(stack.evalStackEnd) <= i < stack.slots.Length ==>
        stack.slots[i] == old(stack.slots[i])
    {
      hide Slice, CanAll, DoAll, Entered;
      var ok := PushInline(callee, pThis);
      assert forall i :: 0 <= i < pThis || old(stack.evalStackEnd) <= i < stack.slots.Length ==> !stack.Own(i);
      RunBody(ops);
      assert forall i :: 0 <= i < pThis || old(stack.evalStackEnd) <= i < stack.slots.Length ==> !stack.Own(i);
    }

    method CallInlined(callee: Method, ops: seq<Op>, exception: bool)
      requires Ready() && Body(Seen().stack, callee, ops) && Inlinable(callee)
      requires |Called(Seen().stack, callee, ops, exception)| <= stack.call.lengthEvalStack
      modifies this, stack, stack.slots
      ensures Returned(callee, ops, exception)
    {
      hide Slice, DoAll, CanAll;
      ghost var f, m, a, n, base := stack, stack.slots[..], stack.argSlots[..], evalPos - stack.base, stack.base;
      var pThis := evalPos + 1 - callee.numArgs;
      RunInlined(callee, pThis, ops);
      ghost var top := Seen().stack;
      ghost var result := if callee.hasResult && !exception then Some(Promote(top[|top| - 1])) else None;
      PopInline(exception);
      stack.base := base;
      ResultPushed(m, f.slots[..], base + 1, n, callee.numArgs, result);
      SliceKept(m, f.slots[..], f.locals, |f.call.localsInit|);
      SliceKept(a, f.argSlots[..], f.arguments, f.call.numArgs);
    }

    // ----- The framed path

    /** Push, with the state of the interpreter written back before and read again after. */
    method PushFrame(callee: Method, pThis: int)
      requires Ready() && callee.numArgs <= |Seen().stack| && pThis == evalPos + 1 - callee.numArgs
      modifies this`stack, this`evalPos, this`ip, stack`evalStackPos, stack`ip
      ensures fresh(stack) && fresh(stack.slots) && stack.caller == old(stack) && stack.argSlots == old(stack).slots
      ensures Ready() && Seen() == Entered(old(Seen()).stack, callee) && stack.call == callee && stack.arguments == pThis
      ensures old(stack).evalStackPos == pThis && old(stack).ip == old(ip) && stack.inlineFrame.None?
      ensures AtEntry() && ip == callee.entry
    {
      hide Slice;
      var caller := stack;
      caller.evalStackPos, caller.ip := evalPos + 1, ip;
      ghost var m, n := caller.slots[..], evalPos - caller.base;
      assert Seen().stack == Slice(m, evalPos + 1 - n, n);
      var frame := new Frame(caller, callee);
      ArgumentsOnTop(m, caller.slots[..], evalPos, n, callee.numArgs);
      caller.evalStackPos := frame.arguments;
      stack := frame;
      evalPos, ip := frame.evalStackPos - 1, frame.ip;
    }

    /** Pop: the caller goes on with the result, if any, on its stack. */
    method PopFrame(exception: bool)
      requires Ready() && stack.caller != null && stack.caller != stack && stack.caller.slots != stack.slots
      requires stack.call.hasResult && !exception ==> Seen().stack != []
      requires 0 <= stack.caller.evalStackPos && (stack.call.hasResult && !exception ==> stack.caller.evalStackPos < stack.caller.slots.Length)
      modifies this`stack, this`evalPos, this`ip, stack`evalStackPos, stack`ip, stack.caller`evalStackPos, stack.caller.slots
      ensures stack == old(stack.caller) && ip == stack.ip == old(stack.caller.ip) && stack.evalStackPos == evalPos + 1
      ensures var pThis := old(stack.caller.evalStackPos);
        if old(stack.call.hasResult) && !exception
        then evalPos == pThis && stack.slots[..] == old(stack.caller.slots[..])[pThis := Promote(old(Seen()).stack[|old(Seen()).stack| - 1])]
        else evalPos == pThis - 1 && stack.slots[..] == old(stack.caller.slots[..])
    {
      var frame := stack;
      var caller := stack.caller;
      frame.evalStackPos, frame.ip := evalPos + 1, ip;
      if frame.call.hasResult && !exception {
        caller.slots[caller.evalStackPos] := Promote(frame.slots[frame.evalStackPos - 1]);
        caller.evalStackPos := caller.evalStackPos + 1;
      }
      stack := caller;
      evalPos, ip := caller.evalStackPos - 1, caller.ip;
    }

    /** The method in its frame up to its return: of the caller, only the arguments may change. */
    method RunFramed(callee: Method, pThis: int, ops: seq<Op>)
      requires Ready() && Body(Seen().stack, callee, ops) && pThis == evalPos + 1 - callee.numArgs
      modifies this`stack, this`evalPos, this`ip, stack`evalStackPos, stack`ip, stack.slots
      ensures fresh(stack) && fresh(stack.slots) && stack.caller == old(stack) && buffers == old(buffers)
      ensures Ready() && Seen() == DoAll(Entered(old(Seen()).stack, callee), ops, callee.lengthEvalStack)
      ensures stack.call == callee && old(stack).evalStackPos == pThis && old(stack).ip == old(ip)
      ensures forall i :: 0 <= i < old(stack).slots.Length && !(pThis <= i <= old(evalPos)) ==>
        old(stack).slots[i] == old(stack.slots[i])
    {
      hide Slice, CanAll, DoAll, Entered;
      PushFrame(callee, pThis);
      RunBody(ops);
    }

    method CallFramed(callee: Method, ops: seq<Op>, exception: bool)
      requires Ready() && Body(Seen().stack, callee, ops)
      requires |Called(Seen().stack, callee, ops, exception)| <= stack.call.lengthEvalStack
      modifies this`stack, this`evalPos, this`ip, stack`evalStackPos, stack`ip, stack.slots
      ensures Returned(callee, ops, exception)
    {
      hide Slice, DoAll, CanAll;
      ghost var f, m, a, n, base := stack, stack.slots[..], stack.argSlots[..], evalPos - stack.base, stack.base;
      var pThis := evalPos + 1 - callee.numArgs;
      RunFramed(callee, pThis, ops);
      ghost var top := Seen().stack;
      ghost var result := if callee.hasResult && !exception then Some(Promote(top[|top| - 1])) else None;
      PopFrame(exception);
      ResultPushed(m, f.slots[..], base + 1, n, callee.numArgs, result);
      SliceKept(m, f.slots[..], f.locals, |f.call.localsInit|);
      SliceKept(a, f.argSlots[..], f.arguments, f.call.numArgs);
    }

    /** CEE_CALL: inlined if that is possible, in a frame of its own if not.  The caller cannot tell. */
    method Call(callee: Method, ops: seq<Op>, exception: bool) returns (hr: Outcome)
      requires Ready() && Body(Seen().stack, callee, ops)
      requires |Called(Seen().stack, callee, ops, exception)| <= stack.call.lengthEvalStack
      modifies this, stack, stack.slots
      ensures hr == NotSupported <==> !callee.hasBody
      ensures hr == NotSupported ==> stack == old(stack) && stack.SameLayout() && unchanged(stack.slots) && evalPos == old(evalPos)
      ensures hr == NotSupported ==> ip == old(ip) == stack.ip && buffers == old(buffers) && stack.evalStackPos == evalPos + 1
      ensures hr == Done ==> Returned(callee, ops, exception)
    {
      if Inlinable(callee) {
        CallInlined(callee, ops, exception);
        return Done;
      }
      if !callee.hasBody {
        stack.evalStackPos, stack.ip := evalPos + 1, ip;
        return NotSupported;
      }
      CallFramed(callee, ops, exception);
      return Done;
    }
  }
}
