/** Delivery of signals to user handlers, and the return through the trampoline: the interrupted
    context is saved on the user stack and comes back, cleaned, in last-in first-out order. */
module Signals {

  const KERNEL_BASE: nat := 0xC000_0000
  const TWO32: nat := 0x1_0000_0000
  const TRAMPOLINE: Word := 0xBFFF_F000
  const SIG_SENTINEL: nat := 32
  const EFAULT: int := 14
  const USER_CS: Word := 0x1B
  const USER_DS: Word := 0x23

  // Word indices in the trap frame.
  const GS: nat := 0
  const FS: nat := 1
  const ES: nat := 2
  const DS: nat := 3
  const EIP: nat := 14
  const CS: nat := 15
  const EFLAGS: nat := 16
  const USER_ESP: nat := 17
  const USER_SS: nat := 18

  /** Words and bytes of a trap frame, and bytes of a sigframe: return address, signal number, trap
      frame. */
  const TF_WORDS: nat := 19
  const TF_BYTES: nat := 76
  const FRAME_BYTES: nat := 84

  type Word = n: nat | n < 0x1_0000_0000
  type TrapFrame = s: seq<Word> | |s| == TF_WORDS witness seq(19, _ => 0)

  /** User memory by address; only word-aligned addresses are looked at. */
  type Memory = nat -> Word

  // ---------------------------------------------------------------- one delivery, one return

  function CleanBits(f: bv32): bv32 {
    (f & 0x0000_0DD5) | 0x202
  }

  function Clean(w: Word): Word {
    CleanBits(w as bv32) as nat
  }

  /** Interrupts end up enabled, the I/O privilege level is 0, virtual-8086 mode and nested tasks are
      off, and the arithmetic, trap and direction flags are those saved. */
  lemma CleanBitsFacts(f: bv32)
    ensures CleanBits(f) & 0x200 != 0 && CleanBits(f) & 0x2_7000 == 0
    ensures CleanBits(f) & 0xDD5 == f & 0xDD5
    ensures CleanBits(CleanBits(f)) == CleanBits(f)
  {
  }

  /** What `sigreturn` makes of a saved frame. */
  function Cleaned(tf: TrapFrame): (r: TrapFrame) {
    tf[USER_SS := USER_DS][EFLAGS := Clean(tf[EFLAGS])][CS := USER_CS]
      [DS := USER_DS][ES := USER_DS][FS := USER_DS][GS := USER_DS]
  }

  function AlignDown16(n: nat): (r: nat)
    ensures r % 16 == 0 && r <= n < r + 16
  {
    n / 16 * 16
  }

  /** Where the sigframe goes, in 32-bit arithmetic. */
  function FrameBase(esp: Word): nat {
    AlignDown16((esp + TWO32 - FRAME_BYTES) % TWO32)
  }

  predicate AccessOk(base: nat, n: nat) {
    base + n <= KERNEL_BASE
  }

  function SavedMemory(mem: Memory, base: nat, sig: Word, tf: TrapFrame): Memory {
    (a: nat) => if a < base || base + FRAME_BYTES <= a || a % 4 != base % 4 then mem(a)
         else if a == base then TRAMPOLINE
         else if a == base + 4 then sig
         else tf[(a - base - 8) / 4]
  }

  function HandlerFrame(tf: TrapFrame, handler: Word): TrapFrame {
    tf[EIP := handler][USER_ESP := FrameBase(tf[USER_ESP])]
  }

  /** Where `sigreturn` looks for the saved frame: four bytes above the stack pointer. */
  function BackupBase(esp: Word): nat {
    (esp + 4) % TWO32
  }

  function ReadFrame(mem: Memory, base: nat): TrapFrame {
    seq(TF_WORDS, k requires 0 <= k < TF_WORDS => mem(base + 4 * k))
  }

  lemma FrameBaseFacts(esp: Word)
    requires AccessOk(FrameBase(esp), FRAME_BYTES)
    ensures esp >= FRAME_BYTES && FrameBase(esp) % 16 == 0
    ensures FrameBase(esp) <= esp - FRAME_BYTES < FrameBase(esp) + 16
  {
    var w := (esp + TWO32 - FRAME_BYTES) % TWO32;
    assert w == if esp < FRAME_BYTES then esp + TWO32 - FRAME_BYTES else esp - FRAME_BYTES;
  }

  // ---------------------------------------------------------------- word by word

  /** The task resumes in the handler, on its frame, with every other register as it was. */
  ghost predicate Entered(tf: TrapFrame, tf': TrapFrame, entry: Word, base: nat) {
    && tf'[14] == entry && tf'[17] == base
    && forall k :: 0 <= k < 19 && k != 14 && k != 17 ==> tf'[k] == tf[k]
  }

  /** The frame in user memory: return address in the trampoline, signal number, the interrupted context; no
      word outside it changed. */
  ghost predicate FrameAt(mem: Memory, mem': Memory, base: nat, sig: nat, tf: TrapFrame) {
    && mem'(base) == 0xBFFF_F000 && mem'(base + 4) == sig
    && (forall k :: 0 <= k < 19 ==> mem'(base + 8 + 4 * k) == tf[k])
    && forall a: nat :: a < base || base + 84 <= a ==> mem'(a) == mem(a)
  }

  /** What comes back: code and data selectors of user mode, flags masked and completed, the rest as stored. */
  ghost predicate Restored(saved: TrapFrame, tf: TrapFrame) {
    && tf[15] == 0x1B && tf[18] == 0x23 && (forall k :: 0 <= k < 4 ==> tf[k] == 0x23)
    && tf[16] == (((saved[16] as bv32) & 0xDD5) | 0x202) as nat
    && forall k :: 4 <= k < 15 || k == 17 ==> tf[k] == saved[k]
  }

  lemma HandlerEntered(tf: TrapFrame, handler: Word)
    requires AccessOk(FrameBase(tf[USER_ESP]), FRAME_BYTES)
    ensures Entered(tf, HandlerFrame(tf, handler), handler, FrameBase(tf[USER_ESP]))
  {
    hide FrameBase;
    FrameBaseFacts(tf[USER_ESP]);
  }

  lemma FrameWritten(mem: Memory, base: nat, sig: Word, tf: TrapFrame)
    ensures FrameAt(mem, SavedMemory(mem, base, sig, tf), base, sig, tf)
  {
    hide SavedMemory;
    FrameEdges(mem, base, sig, tf);
    forall k | 0 <= k < 19 ensures SavedMemory(mem, base, sig, tf)(base + 8 + 4 * k) == tf[k] {
      FrameWord(mem, base, sig, tf, k);
    }
  }

  lemma FrameEdges(mem: Memory, base: nat, sig: Word, tf: TrapFrame)
    ensures var m := SavedMemory(mem, base, sig, tf);
            && m(base) == 0xBFFF_F000 && m(base + 4) == sig
            && forall a: nat :: a < base || base + 84 <= a ==> m(a) == mem(a)
  {
    assert (base + 4) % 4 == base % 4;
  }

  lemma FrameWord(mem: Memory, base: nat, sig: Word, tf: TrapFrame, k: nat)
    requires k < TF_WORDS
    ensures SavedMemory(mem, base, sig, tf)(base + 8 + 4 * k) == tf[k]
  {
    var a := base + 8 + 4 * k;
    assert a % 4 == base % 4 by { assert a == base + 4 * (k + 2); }
    assert (a - base - 8) / 4 == k;
  }

  lemma CleanedRestores(saved: TrapFrame)
    ensures Restored(saved, Cleaned(saved))
  {
    hide Clean;
    CleanIs(saved[EFLAGS]);
  }

  lemma CleanIs(w: Word)
    ensures Clean(w) == (((w as bv32) & 0xDD5) | 0x202) as nat
  {
  }

  // ---------------------------------------------------------------- the task

  /** `signal()` refuses addresses in the kernel's half, so a handler that is not the user's is one of
      the kernel's two defaults. */
  datatype Handler = Ignore | Default | User(entry: Word)

  datatype Outcome = Resumed | Delivered(sig: nat) | Exited(code: int)

  /** Signal `i` changes what the task does next; `init` and the idle task shrug off the defaults. */
  predicate Acts(pid: nat, h: Handler) {
    h.User? || (h.Default? && pid != 0 && pid != 1)
  }

  class SignalTask {
    var tf: TrapFrame
    var mem: Memory
    var pending: set<nat>
    var handlers: seq<Handler>
    var pid: nat

    ghost predicate Valid() reads this {
      |handlers| == SIG_SENTINEL && forall i :: i in pending ==> i < SIG_SENTINEL
    }

    method Dequeue(sig: nat)
      modifies this`pending
      ensures pending == if 0 < sig < SIG_SENTINEL then old(pending) - {sig} else old(pending)
    {
      if 0 < sig < SIG_SENTINEL { pending := pending - {sig}; }
    }

    /** The lowest pending signal that acts decides: those below it are consumed, those above it stay
        pending. `writable` tells whether the pages under the sigframe pass the page-table check. */
    method CallHandlers(writable: bool) returns (o: Outcome, acted: nat)
      requires Valid()
      modifies this`tf, this`mem, this`pending
      ensures Valid() && 1 <= acted <= SIG_SENTINEL
      ensures pending == set i | i in old(pending) && (i == 0 || i > acted)
      ensures forall i :: i in old(pending) && 1 <= i < acted ==> !Acts(pid, handlers[i])
      ensures acted < SIG_SENTINEL ==> acted in old(pending) && Acts(pid, handlers[acted])
      ensures acted == SIG_SENTINEL ==> o == Resumed
      ensures acted < SIG_SENTINEL && handlers[acted].Default? ==> o == Exited(-1)
      ensures acted < SIG_SENTINEL && handlers[acted].User? ==>
                var base := FrameBase(old(tf)[USER_ESP]);
                if AccessOk(base, FRAME_BYTES) && writable then
                  && o == Delivered(acted)
                  && tf == HandlerFrame(old(tf), handlers[acted].entry)
                  && mem == SavedMemory(old(mem), base, acted, old(tf))
                  && Entered(old(tf), tf, handlers[acted].entry, base)
                  && FrameAt(old(mem), mem, base, acted, old(tf))
                else o == Exited(-EFAULT)
      ensures !o.Delivered? ==> tf == old(tf) && mem == old(mem)
    {
      hide Entered, FrameAt, FrameBase, HandlerFrame, SavedMemory;
      var i := 1;
      while i < SIG_SENTINEL
        invariant 1 <= i <= SIG_SENTINEL
        invariant pending == set k | k in old(pending) && (k == 0 || k >= i)
        invariant forall k :: k in old(pending) && 1 <= k < i ==> !Acts(pid, handlers[k])
        invariant tf == old(tf) && mem == old(mem)
      {
        if i in pending {
          Dequeue(i);
          match handlers[i]
          case User(entry) =>
            var base := FrameBase(tf[USER_ESP]);
            if !AccessOk(base, FRAME_BYTES) || !writable { return Exited(-EFAULT), i; }
            HandlerEntered(tf, entry);
            FrameWritten(mem, base, i, tf);
            mem := SavedMemory(mem, base, i, tf);
            tf := HandlerFrame(tf, entry);
            return Delivered(i), i;
          case Default =>
            if pid != 0 && pid != 1 { return Exited(-1), i; }
          case Ignore =>
        }
        i := i + 1;
      }
      return Resumed, i;
    }

    method Sigreturn(readable: bool) returns (o: Outcome)
      modifies this`tf
      ensures var base := BackupBase(old(tf)[USER_ESP]);
              if AccessOk(base, TF_BYTES) && readable then
                o == Resumed && tf == Cleaned(ReadFrame(mem, base)) && Restored(ReadFrame(mem, base), tf)
              else o == Exited(-EFAULT) && tf == old(tf)
    {
      hide Clean, Restored;
      var base := BackupBase(tf[USER_ESP]);
      if !AccessOk(base, TF_BYTES) || !readable { return Exited(-EFAULT); }
      tf := ReadFrame(mem, base);
      CleanedRestores(tf);
      tf := tf[USER_SS := USER_DS];
      tf := tf[EFLAGS := Clean(tf[EFLAGS])];
      tf := tf[CS := USER_CS];
      tf := tf[DS := USER_DS];
      tf := tf[ES := USER_DS];
      tf := tf[FS := USER_DS];
      tf := tf[GS := USER_DS];
      return Resumed;
    }
  }

  // ---------------------------------------------------------------- runs of nested handlers

  /** A handler in progress: where its sigframe is, and the context it interrupted. */
  datatype Saved = Saved(base: nat, tf: TrapFrame)

  datatype Context = Context(tf: TrapFrame, mem: Memory, stack: seq<Saved>)

  datatype Event = Deliver(sig: Word, entry: Word) | UserCode | Return

  ghost predicate Stored(mem: Memory, s: Saved) {
    forall k :: 0 <= k < TF_WORDS ==> mem(s.base + 8 + 4 * k) == s.tf[k]
  }

  /** The stack pointer is not above the innermost handler's frame: at most its return address has
      been popped. */
  predicate BelowTop(esp: nat, stack: seq<Saved>) {
    stack != [] ==> esp <= stack[|stack| - 1].base + 4
  }

  /** One step: a delivery at interrupt exit, a stretch of user code that leaves the saved frames
      alone and its caller's stack frame in place, or the trampoline's `sigreturn`, reached by the
      handler's own return. */
  ghost predicate Step(c: Context, e: Event, c': Context) {
    match e
    case Deliver(sig, entry) =>
      var base := FrameBase(c.tf[USER_ESP]);
      && AccessOk(base, FRAME_BYTES)
      && c'.tf == HandlerFrame(c.tf, entry)
      && c'.mem == SavedMemory(c.mem, base, sig, c.tf)
      && c'.stack == c.stack + [Saved(base, c.tf)]
    case UserCode =>
      && c'.stack == c.stack
      && BelowTop(c'.tf[USER_ESP], c.stack)
      && forall i :: 0 <= i < |c.stack| ==> forall k :: 0 <= k < TF_WORDS ==>
           c'.mem(c.stack[i].base + 8 + 4 * k) == c.mem(c.stack[i].base + 8 + 4 * k)
    case Return =>
      && c.stack != []
      && c.tf[USER_ESP] == c.stack[|c.stack| - 1].base + 4
      && c'.tf == Cleaned(ReadFrame(c.mem, BackupBase(c.tf[USER_ESP])))
      && c'.mem == c.mem
      && c'.stack == c.stack[..|c.stack| - 1]
  }

  /** Every saved context is intact in user memory, each lies below the one it interrupted, and none
      shares a word with another. */
  ghost predicate Nested(c: Context) {
    && (forall s :: s in c.stack ==> FrameOk(c.mem, s))
    && (forall i, j :: 0 <= i < j < |c.stack| ==> Under(c.stack[j], c.stack[i]))
    && BelowTop(c.tf[USER_ESP], c.stack)
  }

  ghost predicate FrameOk(mem: Memory, s: Saved) {
    Stored(mem, s) && s.base % 16 == 0 && AccessOk(s.base, FRAME_BYTES)
  }

  /** `s` was delivered inside handler `o`: it lies below all of `o`'s frame but its return address. */
  predicate Under(s: Saved, o: Saved) {
    s.base + FRAME_BYTES <= o.base + 4 && s.tf[USER_ESP] <= o.base + 4
  }

  lemma FreshStored(mem: Memory, base: nat, sig: Word, tf: TrapFrame)
    ensures Stored(SavedMemory(mem, base, sig, tf), Saved(base, tf))
  {
  }

  lemma OldStored(mem: Memory, base: nat, sig: Word, tf: TrapFrame, s: Saved)
    requires Stored(mem, s) && base + FRAME_BYTES <= s.base + 4
    ensures Stored(SavedMemory(mem, base, sig, tf), s)
  {
  }

  /** The new frame is under every frame in progress. */
  lemma DeliverUnder(c: Context, i: nat)
    requires Nested(c) && i < |c.stack| && AccessOk(FrameBase(c.tf[USER_ESP]), FRAME_BYTES)
    ensures Under(Saved(FrameBase(c.tf[USER_ESP]), c.tf), c.stack[i])
  {
  }

  lemma DeliverNested(c: Context, e: Event, c': Context)
    requires Nested(c) && e.Deliver? && Step(c, e, c')
    ensures Nested(c')
  {
    hide Stored, SavedMemory, FrameBase;
    var base := FrameBase(c.tf[USER_ESP]);
    var s := Saved(base, c.tf);
    FrameBaseFacts(c.tf[USER_ESP]);
    FreshStored(c.mem, base, e.sig, c.tf);
    forall i | 0 <= i < |c.stack| ensures Under(s, c.stack[i]) && FrameOk(c'.mem, c.stack[i]) {
      DeliverUnder(c, i);
      assert c.stack[i] in c.stack;
      OldStored(c.mem, base, e.sig, c.tf, c.stack[i]);
    }
    hide FrameOk, Under;
  }

  lemma UserNested(c: Context, c': Context)
    requires Nested(c) && Step(c, UserCode, c')
    ensures Nested(c')
  {
    forall s | s in c'.stack ensures Stored(c'.mem, s) {
      var i :| 0 <= i < |c.stack| && c.stack[i] == s;
    }
  }

  lemma ReadStored(mem: Memory, s: Saved)
    requires Stored(mem, s) && AccessOk(s.base, FRAME_BYTES)
    ensures ReadFrame(mem, BackupBase(s.base + 4)) == s.tf
  {
  }

  lemma CleanedKeeps(tf: TrapFrame, k: nat)
    requires k < TF_WORDS && k !in {GS, FS, ES, DS, CS, EFLAGS, USER_SS}
    ensures Cleaned(tf)[k] == tf[k]
  {
  }

  /** `sigreturn` from the innermost handler gives back the context that its delivery saved. */
  lemma ReturnRestores(c: Context, c': Context)
    requires Nested(c) && Step(c, Return, c')
    ensures c'.tf == Cleaned(c.stack[|c.stack| - 1].tf)
  {
    hide Cleaned, ReadFrame, BackupBase, Stored, FrameBase, SavedMemory;
    var s := c.stack[|c.stack| - 1];
    assert s in c.stack && Stored(c.mem, s);
    ReadStored(c.mem, s);
  }

  lemma ReturnNested(c: Context, c': Context)
    requires Nested(c) && Step(c, Return, c')
    ensures Nested(c')
  {
    hide Cleaned, ReadFrame, BackupBase, FrameOk, FrameBase, SavedMemory;
    ReturnRestores(c, c');
    var n := |c.stack| - 1;
    CleanedKeeps(c.stack[n].tf, USER_ESP);
    assert n > 0 ==> Under(c.stack[n], c.stack[n - 1]);
  }

  ghost predicate Run(cs: seq<Context>, es: seq<Event>) {
    && |cs| == |es| + 1
    && cs[0].stack == []
    && forall i :: 0 <= i < |es| ==> Step(cs[i], es[i], cs[i + 1])
  }

  /** In every run the saved contexts stay intact and disjoint. */
  lemma {:induction false} RunNested(cs: seq<Context>, es: seq<Event>, n: nat)
    requires Run(cs, es) && n < |cs|
    ensures Nested(cs[n])
    decreases n
  {
    hide Nested, Step;
    if n == 0 {
      EmptyNested(cs[0]);
    } else {
      RunNested(cs, es, n - 1);
      var e := es[n - 1];
      assert Step(cs[n - 1], e, cs[n - 1 + 1]);
      match e
      case Deliver(_, _) => DeliverNested(cs[n - 1], e, cs[n]);
      case UserCode => UserNested(cs[n - 1], cs[n]);
      case Return => ReturnNested(cs[n - 1], cs[n]);
    }
  }

  lemma EmptyNested(c: Context)
    requires c.stack == []
    ensures Nested(c)
  {
  }

  /** As long as a handler has not returned, the frames below it are those of its delivery. */
  lemma {:induction false} PrefixStays(cs: seq<Context>, es: seq<Event>, i: nat, j: nat, p: seq<Saved>)
    requires Run(cs, es) && i <= j < |cs|
    requires p <= cs[i].stack && forall k :: i <= k <= j ==> |p| <= |cs[k].stack|
    ensures p <= cs[j].stack
    decreases j - i
  {
    if i < j {
      assert Step(cs[i], es[i], cs[i + 1]);
      PrefixStays(cs, es, i + 1, j, p);
    }
  }

  /** Last in, first out: when the handler delivered at step `i` returns at step `j`, whatever handlers
      were delivered and returned in between, the task resumes the context interrupted at `i`, with its
      flags and selectors cleaned, and the handlers in progress are those of step `i`. */
  lemma HandlerReturnsToInterrupted(cs: seq<Context>, es: seq<Event>, i: nat, j: nat)
    requires Run(cs, es) && i < j < |es| && es[i].Deliver? && es[j].Return?
    requires forall k :: i < k <= j ==> |cs[k].stack| > |cs[i].stack|
    requires |cs[j + 1].stack| == |cs[i].stack|
    ensures cs[j + 1].tf == Cleaned(cs[i].tf) && Restored(cs[i].tf, cs[j + 1].tf)
    ensures cs[j + 1].stack == cs[i].stack
  {
    hide Cleaned, Nested, Restored;
    CleanedRestores(cs[i].tf);
    assert Step(cs[i], es[i], cs[i + 1]) && Step(cs[j], es[j], cs[j + 1]);
    PrefixStays(cs, es, i + 1, j, cs[i + 1].stack);
    RunNested(cs, es, j);
    ReturnRestores(cs[j], cs[j + 1]);
  }

  /** Whole sigframes are disjoint exactly when the delivery did not hit the trampoline itself. */
  lemma FramesDisjointIff(c: Context, e: Event, c': Context)
    requires Nested(c) && c.stack != [] && e.Deliver? && Step(c, e, c')
    ensures var n := |c.stack|;
            c'.stack[n].base + FRAME_BYTES <= c.stack[n - 1].base <==> c.tf[USER_ESP] < c.stack[n - 1].base + 4
  {
    hide Stored;
    FrameBaseFacts(c.tf[USER_ESP]);
    var n := |c.stack|;
    assert c.stack[n - 1] in c.stack;
    assert c'.stack[n].base % 16 == 0 && c.stack[n - 1].base % 16 == 0;
  }

  /** A second delivery right after the first handler has returned into the trampoline reuses the
      word of the return address, which is no longer needed. */
  lemma TrampolineFramesOverlap(base: nat)
    requires base % 16 == 0 && FRAME_BYTES <= base && AccessOk(base, FRAME_BYTES)
    ensures FrameBase(base + 4) + FRAME_BYTES == base + 4
  {
  }
}
