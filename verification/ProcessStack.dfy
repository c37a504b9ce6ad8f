/**
 * The initial stack of a process: program headers, argument strings, and below them the frame
 * that a C runtime expects (System V ABI, AMD64 supplement, section 3.4.1).
 */
module ProcessStack {
  import opened Common

  type Word = n: nat | n < 0x1_0000_0000_0000_0000

  const WORD_BYTES: nat := 8
  const STACK_CALL_ALIGNMENT: nat := 16
  const PHDR_BYTES: nat := 56
  const PAGE_SIZE_4K: Word := 4096

  const AT_PHDR: Word := 3
  const AT_PHENT: Word := 4
  const AT_PHNUM: Word := 5
  const AT_PAGESZ: Word := 6
  const AT_SYSINFO: Word := 32

  // ===== words in memory =====

  /** Little-endian bytes. */
  function WordBytes(w: nat, n: nat): (s: seq<Byte>)
    ensures |s| == n
  {
    if n == 0 then [] else [w % 0x100] + WordBytes(w / 0x100, n - 1)
  }

  function WordOf(s: seq<Byte>): nat {
    if s == [] then 0 else s[0] + 0x100 * WordOf(s[1..])
  }

  function Power(n: nat): nat {
    if n == 0 then 1 else 0x100 * Power(n - 1)
  }

  lemma {:induction false} WordRoundTrip(w: nat, n: nat)
    requires w < Power(n)
    ensures WordOf(WordBytes(w, n)) == w
  {
    if n > 0 {
      WordRoundTrip(w / 0x100, n - 1);
      assert WordBytes(w, n)[1..] == WordBytes(w / 0x100, n - 1);
    }
  }

  function WordsBytes(ws: seq<Word>): (s: seq<Byte>)
    ensures |s| == 8 * |ws|
  {
    if ws == [] then [] else WordBytes(ws[0], 8) + WordsBytes(ws[1..])
  }

  lemma {:induction false} WordsConcat(a: seq<Word>, b: seq<Word>)
    ensures WordsBytes(a + b) == WordsBytes(a) + WordsBytes(b)
  {
    if a == [] {
      assert a + b == b;
    } else {
      assert (a + b)[1..] == a[1..] + b;
      WordsConcat(a[1..], b);
    }
  }

  predicate Holds(m: seq<Byte>, a: nat, data: seq<Byte>) {
    a + |data| <= |m| && m[a..a + |data|] == data
  }

  function WordAt(m: seq<Byte>, a: nat): nat
    requires a + 8 <= |m|
  {
    WordOf(m[a..a + 8])
  }

  /** A frame of words is read back word by word. */
  lemma {:induction false} ReadBack(m: seq<Byte>, a: nat, ws: seq<Word>, i: nat)
    requires Holds(m, a, WordsBytes(ws)) && i < |ws|
    ensures a + 8 * i + 8 <= |m| && WordAt(m, a + 8 * i) == ws[i]
    decreases i
  {
    var first := WordBytes(ws[0], 8);
    HoldsParts(m, a, first, WordsBytes(ws[1..]));
    if i == 0 {
      assert Power(8) == 0x1_0000_0000_0000_0000;
      WordRoundTrip(ws[0], 8);
    } else {
      ReadBack(m, a + 8, ws[1..], i - 1);
    }
  }

  lemma HoldsParts(m: seq<Byte>, a: nat, x: seq<Byte>, y: seq<Byte>)
    ensures Holds(m, a, x + y) <==> Holds(m, a, x) && Holds(m, a + |x|, y)
  {
    if Holds(m, a, x + y) {
      assert m[a..a + |x|] == (x + y)[..|x|] && m[a + |x|..a + |x| + |y|] == (x + y)[|x|..];
      assert (x + y)[..|x|] == x && (x + y)[|x|..] == y;
    }
    if Holds(m, a, x) && Holds(m, a + |x|, y) {
      assert m[a..a + |x + y|] == m[a..a + |x|] + m[a + |x|..a + |x| + |y|];
    }
  }

  /** Memory above the stack pointer is not written any more. */
  ghost predicate KeptAbove(m: seq<Byte>, n: seq<Byte>, sp: nat) {
    |n| == |m| && forall k :: sp <= k < |m| ==> n[k] == m[k]
  }

  lemma StillHolds(m: seq<Byte>, n: seq<Byte>, sp: nat, a: nat, data: seq<Byte>)
    requires KeptAbove(m, n, sp) && Holds(m, a, data) && sp <= a
    ensures Holds(n, a, data)
  {
    assert n[a..a + |data|] == m[a..a + |data|];
  }

  // ===== the stack =====

  class Stack {
    const mem: array<Byte>
    var sp: nat

    ghost predicate Valid()
      reads this
    {
      sp <= mem.Length
    }

    constructor (mem: array<Byte>, top: nat)
      requires top <= mem.Length
      ensures Valid() && this.mem == mem && sp == top
    {
      this.mem := mem;
      sp := top;
    }

    /** Write below the stack pointer; fails at the bottom of the stack. */
    method Write(data: seq<Byte>) returns (error: bool)
      requires Valid()
      modifies this`sp, mem
      ensures Valid() && KeptAbove(old(mem[..]), mem[..], old(sp))
      ensures error <==> |data| > old(sp)
      ensures error ==> sp == old(sp) && mem[..] == old(mem[..])
      ensures !error ==> sp == old(sp) - |data| && Holds(mem[..], sp, data)
    {
      if |data| > sp {
        return true;
      }
      error := false;
      sp := sp - |data|;
      for k := 0 to |data|
        invariant forall j :: sp <= j < sp + k ==> mem[j] == data[j - sp]
        invariant forall j :: 0 <= j < mem.Length && !(sp <= j < sp + k) ==> mem[j] == old(mem[j])
        invariant sp == old(sp) - |data|
        modifies mem
      {
        mem[sp + k] := data[k];
      }
      assert mem[..][sp..sp + |data|] == data;
    }

    /** Leave some bytes unused. */
    method Skip(n: nat) returns (error: bool)
      requires Valid()
      modifies this`sp
      ensures Valid() && (error <==> n > old(sp)) && sp == if error then old(sp) else old(sp) - n
    {
      error := n > sp;
      if !error {
        sp := sp - n;
      }
    }

    /** Push words below a frame of words. */
    method Push(ws: seq<Word>, ghost frame: seq<Word>) returns (error: bool)
      requires Valid() && Holds(mem[..], sp, WordsBytes(frame))
      modifies this`sp, mem
      ensures Valid() && KeptAbove(old(mem[..]), mem[..], old(sp))
      ensures error <==> 8 * |ws| > old(sp)
      ensures error ==> sp == old(sp)
      ensures !error ==> sp == old(sp) - 8 * |ws| && Holds(mem[..], sp, WordsBytes(ws + frame))
    {
      error := Write(WordsBytes(ws));
      if !error {
        StillHolds(old(mem[..]), mem[..], old(sp), old(sp), WordsBytes(frame));
        WordsConcat(ws, frame);
        HoldsParts(mem[..], sp, WordsBytes(ws), WordsBytes(frame));
      }
    }

    /** Copy the strings, each with its terminating zero, and keep the stack pointer a multiple of 4. */
    method CopyArgs(argv: seq<seq<Byte>>) returns (error: bool, dest: seq<Word>)
      requires Valid() && mem.Length < 0x1_0000_0000_0000_0000
      modifies this`sp, mem
      ensures Valid() && sp <= old(sp) && KeptAbove(old(mem[..]), mem[..], old(sp))
      ensures !error ==> |dest| == |argv| && Strings(mem[..], sp, old(sp), argv, dest)
      ensures !error ==> old(sp) - sp <= StringRoom(argv)
      ensures error ==> old(sp) < StringRoom(argv)
    {
      hide Holds, Strings, KeptAbove, StringRoom;
      dest := [];
      NoStrings(mem[..], sp);
      assert argv[..0] == [];
      for i := 0 to |argv|
        invariant Valid() && sp <= old(sp) && KeptAbove(old(mem[..]), mem[..], old(sp))
        invariant |dest| == i && Strings(mem[..], sp, old(sp), argv[..i], dest)
        invariant old(sp) - sp <= StringRoom(argv[..i])
      {
        ghost var m, before := mem[..], sp;
        RoomGrows(argv, i);
        error := Write(argv[i] + [0]);
        if error {
          return;
        }
        KeptTwice(old(mem[..]), m, mem[..], old(sp), before);
        StringsStay(m, mem[..], before, old(sp), argv[..i], dest);
        AddString(mem[..], before, old(sp), argv[..i], dest, sp, argv[i], sp - sp % 4);
        dest := dest + [sp];
        sp := sp - sp % 4;
        assert argv[..i + 1] == argv[..i] + [argv[i]];
      }
      assert argv[..|argv|] == argv;
      error := false;
    }
  }

  /** String `i` lies at `dest[i]`, below those before it, between `low` and `high`. */
  ghost predicate Strings(m: seq<Byte>, low: nat, high: nat, argv: seq<seq<Byte>>, dest: seq<Word>) {
    && |dest| == |argv|
    && (forall i :: 0 <= i < |argv| ==> low <= dest[i] && Holds(m, dest[i], argv[i] + [0]) && dest[i] + |argv[i]| + 1 <= high)
    && (forall i, j :: 0 <= i < j < |argv| ==> dest[j] + |argv[j]| + 1 <= dest[i])
  }

  lemma KeptTwice(l: seq<Byte>, m: seq<Byte>, n: seq<Byte>, sp: nat, lower: nat)
    requires lower <= sp && KeptAbove(m, n, lower)
    ensures KeptAbove(n, n, sp)
    ensures KeptAbove(l, m, sp) ==> KeptAbove(l, n, sp)
    ensures KeptAbove(m, n, sp)
  {
  }

  lemma NoStrings(m: seq<Byte>, sp: nat)
    ensures Strings(m, sp, sp, [], []) && StringRoom([]) == 0 && KeptAbove(m, m, sp)
  {
  }

  lemma AddString(m: seq<Byte>, low: nat, high: nat, argv: seq<seq<Byte>>, dest: seq<Word>, at: Word, s: seq<Byte>, lower: nat)
    requires Strings(m, low, high, argv, dest) && low <= high
    requires Holds(m, at, s + [0]) && lower <= at && at + |s| + 1 <= low
    ensures Strings(m, lower, high, argv + [s], dest + [at])
  {
    hide Holds;
  }

  lemma StringsStay(m: seq<Byte>, n: seq<Byte>, low: nat, high: nat, argv: seq<seq<Byte>>, dest: seq<Word>)
    requires Strings(m, low, high, argv, dest) && KeptAbove(m, n, low)
    ensures Strings(n, low, high, argv, dest)
  {
    forall i | 0 <= i < |argv| ensures Holds(n, dest[i], argv[i] + [0]) {
      StillHolds(m, n, low, dest[i], argv[i] + [0]);
    }
  }

  /** Room for the strings, their zeros, and the rounding after each. */
  function StringRoom(argv: seq<seq<Byte>>): nat {
    if argv == [] then 0 else StringRoom(argv[..|argv| - 1]) + |argv[|argv| - 1]| + 4
  }

  lemma {:induction false} RoomGrows(argv: seq<seq<Byte>>, i: nat)
    requires i < |argv|
    ensures StringRoom(argv[..i + 1]) == StringRoom(argv[..i]) + |argv[i]| + 4 <= StringRoom(argv)
    decreases |argv|
  {
    assert argv[..i + 1][..i] == argv[..i];
    if i < |argv| - 1 {
      RoomGrows(argv[..|argv| - 1], i);
      assert argv[..|argv| - 1][..i + 1] == argv[..i + 1] && argv[..|argv| - 1][..i] == argv[..i];
    } else {
      assert argv[..i + 1] == argv;
    }
  }

  // ===== frames =====

  datatype Aux = Aux(kind: Word, value: Word)

  function AuxWords(aux: seq<Aux>): (ws: seq<Word>)
    ensures |ws| == 2 * |aux|
  {
    if aux == [] then [] else [aux[0].kind, aux[0].value] + AuxWords(aux[1..])
  }

  /** argc, the argument pointers and a null, the null of the empty environment, the pairs, and two zeros. */
  function RuntimeFrame(dest: seq<Word>, aux: seq<Aux>): seq<Word>
    requires |dest| < 0x8000_0000
  {
    [|dest|] + dest + [0] + [0] + AuxWords(aux) + [0, 0]
  }

  function ArgsFrame(dest: seq<Word>): seq<Word>
    requires |dest| < 0x8000_0000
  {
    [|dest|] + dest + [0]
  }

  /** What the loader knows about the process; the seL4-specific type codes are not part of this model. */
  datatype Image = Image(
    phdrs: seq<Byte>, pageSize: Word, ipcBuffer: Word, sharedData: Word, sysinfo: Word,
    ipcKind: Word, tcbKind: Word, sharedKind: Word)

  predicate WholePhdrs(image: Image) {
    |image.phdrs| % PHDR_BYTES == 0 && |image.phdrs| < 0x1_0000_0000
  }

  function AuxOf(image: Image, phdr: Word): (aux: seq<Aux>)
    requires WholePhdrs(image)
    ensures |aux| == if image.sysinfo != 0 then 8 else 7
  {
    [Aux(AT_PAGESZ, image.pageSize), Aux(AT_PHDR, phdr), Aux(AT_PHNUM, |image.phdrs| / PHDR_BYTES),
     Aux(AT_PHENT, PHDR_BYTES), Aux(image.ipcKind, image.ipcBuffer), Aux(image.tcbKind, 0),
     Aux(image.sharedKind, image.sharedData)] +
    if image.sysinfo != 0 then [Aux(AT_SYSINFO, image.sysinfo)] else []
  }

  /** The frame can be read upward from the stack pointer, which is aligned. */
  ghost predicate FrameAt(m: seq<Byte>, sp: nat, frame: seq<Word>) {
    && sp % STACK_CALL_ALIGNMENT == 0
    && (forall i :: 0 <= i < |frame| ==> sp + 8 * i + 8 <= |m| && WordAt(m, sp + 8 * i) == frame[i])
  }

  /** Upward from `sp`: argc, the argument pointers and a null, another null, the pairs, and two zeros. */
  ghost predicate RuntimeAt(m: seq<Byte>, sp: nat, dest: seq<Word>, aux: seq<Aux>) {
    var n, k := |dest|, |aux|;
    && sp % 16 == 0 && sp + 8 * (n + 2 * k + 5) <= |m|
    && WordAt(m, sp) == n
    && (forall i :: 0 <= i < n ==> WordAt(m, sp + 8 * (1 + i)) == dest[i])
    && WordAt(m, sp + 8 * (n + 1)) == 0 && WordAt(m, sp + 8 * (n + 2)) == 0
    && (forall i :: 0 <= i < k ==>
          WordAt(m, sp + 8 * (n + 3 + 2 * i)) == aux[i].kind && WordAt(m, sp + 8 * (n + 4 + 2 * i)) == aux[i].value)
    && WordAt(m, sp + 8 * (n + 3 + 2 * k)) == 0 && WordAt(m, sp + 8 * (n + 4 + 2 * k)) == 0
  }

  /** Upward from `sp`: argc, the argument pointers and a null. */
  ghost predicate ArgsAt(m: seq<Byte>, sp: nat, dest: seq<Word>) {
    var n := |dest|;
    && sp % 16 == 0 && sp + 8 * (n + 2) <= |m|
    && WordAt(m, sp) == n
    && (forall i :: 0 <= i < n ==> WordAt(m, sp + 8 * (1 + i)) == dest[i])
    && WordAt(m, sp + 8 * (n + 1)) == 0
  }

  /** The auxiliary vector, with the type codes of the ABI: page size, program headers, and what is particular to seL4. */
  predicate Describes(aux: seq<Aux>, image: Image, phdr: Word)
    requires WholePhdrs(image)
  {
    && |aux| == (if image.sysinfo != 0 then 8 else 7)
    && aux[0] == Aux(6, image.pageSize) && aux[1] == Aux(3, phdr) && aux[2] == Aux(5, |image.phdrs| / 56) && aux[3] == Aux(4, 56)
    && aux[4] == Aux(image.ipcKind, image.ipcBuffer) && aux[5] == Aux(image.tcbKind, 0)
    && aux[6] == Aux(image.sharedKind, image.sharedData) && (image.sysinfo != 0 ==> aux[7] == Aux(32, image.sysinfo))
  }

  lemma AuxDescribes(image: Image, phdr: Word)
    requires WholePhdrs(image)
    ensures Describes(AuxOf(image, phdr), image, phdr)
  {
  }

  lemma {:induction false} AuxWordAt(aux: seq<Aux>, i: nat)
    requires i < |aux|
    ensures AuxWords(aux)[2 * i] == aux[i].kind && AuxWords(aux)[2 * i + 1] == aux[i].value
  {
    if i > 0 {
      AuxWordAt(aux[1..], i - 1);
      assert AuxWords(aux)[2 * i] == AuxWords(aux[1..])[2 * (i - 1)];
      assert AuxWords(aux)[2 * i + 1] == AuxWords(aux[1..])[2 * (i - 1) + 1];
    }
  }

  lemma FrameWord(m: seq<Byte>, sp: nat, frame: seq<Word>, i: nat)
    requires FrameAt(m, sp, frame) && i < |frame|
    ensures sp % 16 == 0 && sp + 8 * i + 8 <= |m| && WordAt(m, sp + 8 * i) == frame[i]
  {
  }

  lemma RuntimeFrameReads(m: seq<Byte>, sp: nat, dest: seq<Word>, aux: seq<Aux>)
    requires |dest| < 0x8000_0000 && FrameAt(m, sp, RuntimeFrame(dest, aux))
    ensures RuntimeAt(m, sp, dest, aux)
  {
    EndsRead(m, sp, dest, aux);
    hide WordAt, FrameAt, RuntimeFrame;
    forall i | 0 <= i < |dest| ensures WordAt(m, sp + 8 * (1 + i)) == dest[i] {
      PointerReads(m, sp, dest, aux, i);
    }
    forall i | 0 <= i < |aux|
      ensures WordAt(m, sp + 8 * (|dest| + 3 + 2 * i)) == aux[i].kind && WordAt(m, sp + 8 * (|dest| + 4 + 2 * i)) == aux[i].value
    {
      PairReads(m, sp, dest, aux, i);
    }
  }

  lemma EndsRead(m: seq<Byte>, sp: nat, dest: seq<Word>, aux: seq<Aux>)
    requires |dest| < 0x8000_0000 && FrameAt(m, sp, RuntimeFrame(dest, aux))
    ensures var n, k := |dest|, |aux|;
            && sp % 16 == 0 && sp + 8 * (n + 2 * k + 5) <= |m| && WordAt(m, sp) == n
            && WordAt(m, sp + 8 * (n + 1)) == 0 && WordAt(m, sp + 8 * (n + 2)) == 0
            && WordAt(m, sp + 8 * (n + 3 + 2 * k)) == 0 && WordAt(m, sp + 8 * (n + 4 + 2 * k)) == 0
  {
    var f, n, k := RuntimeFrame(dest, aux), |dest|, |aux|;
    FrameWord(m, sp, f, 0);
    FrameWord(m, sp, f, n + 1);
    FrameWord(m, sp, f, n + 2);
    FrameWord(m, sp, f, n + 3 + 2 * k);
    FrameWord(m, sp, f, n + 4 + 2 * k);
  }

  lemma PointerReads(m: seq<Byte>, sp: nat, dest: seq<Word>, aux: seq<Aux>, i: nat)
    requires |dest| < 0x8000_0000 && FrameAt(m, sp, RuntimeFrame(dest, aux)) && i < |dest|
    ensures sp + 8 * (1 + i) + 8 <= |m| && WordAt(m, sp + 8 * (1 + i)) == dest[i]
  {
    FrameWord(m, sp, RuntimeFrame(dest, aux), 1 + i);
  }

  lemma PairReads(m: seq<Byte>, sp: nat, dest: seq<Word>, aux: seq<Aux>, i: nat)
    requires |dest| < 0x8000_0000 && FrameAt(m, sp, RuntimeFrame(dest, aux)) && i < |aux|
    ensures var at := sp + 8 * (|dest| + 3 + 2 * i);
            at + 16 <= |m| && WordAt(m, at) == aux[i].kind && WordAt(m, at + 8) == aux[i].value
  {
    AuxWordAt(aux, i);
    FrameWord(m, sp, RuntimeFrame(dest, aux), |dest| + 3 + 2 * i);
    FrameWord(m, sp, RuntimeFrame(dest, aux), |dest| + 4 + 2 * i);
  }

  lemma ArgsFrameReads(m: seq<Byte>, sp: nat, dest: seq<Word>)
    requires |dest| < 0x8000_0000 && FrameAt(m, sp, ArgsFrame(dest))
    ensures ArgsAt(m, sp, dest)
  {
    var f, n := ArgsFrame(dest), |dest|;
    hide WordAt, FrameAt;
    FrameWord(m, sp, f, 0);
    FrameWord(m, sp, f, n + 1);
    forall i | 0 <= i < n ensures WordAt(m, sp + 8 * (1 + i)) == dest[i] {
      FrameWord(m, sp, f, 1 + i);
    }
  }

  lemma FrameReads(m: seq<Byte>, sp: nat, frame: seq<Word>)
    requires sp % STACK_CALL_ALIGNMENT == 0 && Holds(m, sp, WordsBytes(frame))
    ensures FrameAt(m, sp, frame)
  {
    hide WordsBytes, Holds, WordAt;
    forall i | 0 <= i < |frame| ensures sp + 8 * i + 8 <= |m| && WordAt(m, sp + 8 * i) == frame[i] {
      ReadBack(m, sp, frame, i);
    }
  }

  /** How far to move down so that pushing `n` bytes ends at an aligned address. */
  function Rounding(sp: nat, n: nat): (r: nat)
    ensures r < STACK_CALL_ALIGNMENT
    ensures (sp - r - n) % STACK_CALL_ALIGNMENT == 0
  {
    (sp - n) % STACK_CALL_ALIGNMENT
  }

  /** The words that pushing the parts one after the other leaves, from the last part up. */
  function FrameOf(parts: seq<seq<Word>>): seq<Word> {
    if parts == [] then [] else parts[|parts| - 1] + FrameOf(parts[..|parts| - 1])
  }

  lemma {:induction false} PartsAddUp(parts: seq<seq<Word>>, i: nat)
    requires i < |parts|
    ensures FrameOf(parts[..i + 1]) == parts[i] + FrameOf(parts[..i])
    ensures |FrameOf(parts[..i + 1])| <= |FrameOf(parts)|
    decreases |parts|
  {
    assert parts[..i + 1][..i] == parts[..i];
    if i < |parts| - 1 {
      PartsAddUp(parts[..|parts| - 1], i);
      assert parts[..|parts| - 1][..i + 1] == parts[..i + 1];
    } else {
      assert parts[..i + 1] == parts;
    }
  }

  lemma NoWords(m: seq<Byte>, sp: nat)
    requires sp <= |m|
    ensures Holds(m, sp, WordsBytes([])) && KeptAbove(m, m, sp) && FrameOf([]) == []
  {
  }

  // ===== building the stack =====

  /** Round the stack pointer so that it is aligned after `toPush` more bytes, then push the parts. */
  method WriteFrame(stack: Stack, parts: seq<seq<Word>>, toPush: nat) returns (error: bool)
    requires stack.Valid() && toPush == 8 * |FrameOf(parts)|
    modifies stack`sp, stack.mem
    ensures stack.Valid() && stack.sp <= old(stack.sp) && KeptAbove(old(stack.mem[..]), stack.mem[..], old(stack.sp))
    ensures !error ==> FrameAt(stack.mem[..], stack.sp, FrameOf(parts)) && stack.sp + toPush <= old(stack.sp)
    ensures error ==> old(stack.sp) < toPush + STACK_CALL_ALIGNMENT
  {
    hide WordsBytes, Holds, KeptAbove, FrameOf, FrameAt;
    error := stack.Skip(Rounding(stack.sp, toPush));
    NoWords(stack.mem[..], stack.sp);
    KeptTwice(stack.mem[..], stack.mem[..], stack.mem[..], old(stack.sp), stack.sp);
    if error {
      return;
    }
    assert parts[..0] == [];
    ghost var start := stack.sp;
    for i := 0 to |parts|
      invariant stack.Valid() && KeptAbove(old(stack.mem[..]), stack.mem[..], old(stack.sp))
      invariant stack.sp == start - 8 * |FrameOf(parts[..i])| && Holds(stack.mem[..], stack.sp, WordsBytes(FrameOf(parts[..i])))
    {
      PartsAddUp(parts, i);
      ghost var m, before := stack.mem[..], stack.sp;
      error := stack.Push(parts[i], FrameOf(parts[..i]));
      KeptTwice(old(stack.mem[..]), m, stack.mem[..], old(stack.sp), before);
      if error {
        return;
      }
    }
    assert parts[..|parts|] == parts;
    error := false;
    FrameReads(stack.mem[..], stack.sp, FrameOf(parts));
  }

  /** ads_write_stack_args: argument strings, then argc, argv and a null. */
  method WriteStackArgs(stack: Stack, argv: seq<seq<Byte>>) returns (error: bool, ghost dest: seq<Word>)
    requires stack.Valid() && stack.mem.Length < 0x1_0000_0000_0000_0000 && |argv| < 0x8000_0000
    modifies stack`sp, stack.mem
    ensures stack.Valid() && KeptAbove(old(stack.mem[..]), stack.mem[..], old(stack.sp))
    ensures !error ==> |dest| == |argv| && ArgsAt(stack.mem[..], stack.sp, dest)
    ensures !error ==> Strings(stack.mem[..], stack.sp + 8 * (|argv| + 2), old(stack.sp), argv, dest)
    ensures error ==> old(stack.sp) < StringRoom(argv) + 8 * (2 + |argv|) + STACK_CALL_ALIGNMENT
  {
    hide Strings, KeptAbove, FrameOf, FrameAt, StringRoom, ArgsAt;
    var destArgv;
    error, destArgv := stack.CopyArgs(argv);
    dest := destArgv;
    if error {
      return;
    }
    ghost var m, low := stack.mem[..], stack.sp;
    var toPush := 8 * 2 + 8 * |destArgv|;
    ArgsParts(destArgv);
    error := WriteFrame(stack, [[0], destArgv, [|destArgv|]], toPush);
    KeptTwice(old(stack.mem[..]), m, stack.mem[..], old(stack.sp), low);
    if !error {
      ArgsFrameReads(stack.mem[..], stack.sp, dest);
      StringsStay(m, stack.mem[..], low, old(stack.sp), argv, dest);
      StringsAbove(stack.mem[..], low, stack.sp + toPush, old(stack.sp), argv, dest);
    }
  }

  lemma StringsAbove(m: seq<Byte>, low: nat, lower: nat, high: nat, argv: seq<seq<Byte>>, dest: seq<Word>)
    requires Strings(m, low, high, argv, dest) && lower <= low
    ensures Strings(m, lower, high, argv, dest)
  {
  }

  lemma ArgsParts(dest: seq<Word>)
    requires |dest| < 0x8000_0000
    ensures FrameOf([[0], dest, [|dest|]]) == ArgsFrame(dest)
  {
    hide FrameOf;
    PushedLast([[0], dest, [|dest|]], [[0], dest], [|dest|]);
    PushedLast([[0], dest], [[0]], dest);
    PushedLast([[0]], [], [0]);
  }

  lemma PushedLast(all: seq<seq<Word>>, parts: seq<seq<Word>>, last: seq<Word>)
    requires all == parts + [last]
    ensures FrameOf(all) == last + FrameOf(parts)
    ensures FrameOf([]) == []
  {
    assert all[..|all| - 1] == parts;
  }

  /** ads_write_stack_runtime: program headers, argument strings, then the frame of a C runtime. */
  method WriteStackRuntime(stack: Stack, image: Image, argv: seq<seq<Byte>>)
    returns (error: bool, ghost dest: seq<Word>, ghost phdr: Word, ghost aux: seq<Aux>)
    requires stack.Valid() && stack.mem.Length < 0x1_0000_0000_0000_0000 && |argv| < 0x8000_0000 && WholePhdrs(image)
    modifies stack`sp, stack.mem
    ensures stack.Valid() && KeptAbove(old(stack.mem[..]), stack.mem[..], old(stack.sp))
    ensures !error ==> |dest| == |argv| && RuntimeAt(stack.mem[..], stack.sp, dest, aux) && Describes(aux, image, phdr)
    ensures !error ==> Strings(stack.mem[..], stack.sp + 8 * (|argv| + 2 * |aux| + 5), phdr, argv, dest)
    ensures !error ==> phdr + |image.phdrs| + WORD_BYTES == old(stack.sp) && Holds(stack.mem[..], phdr, image.phdrs)
    ensures error ==> old(stack.sp) < WORD_BYTES + |image.phdrs| + StringRoom(argv) + 8 * (21 + |argv|) + STACK_CALL_ALIGNMENT
  {
    hide Strings, KeptAbove, FrameOf, FrameAt, StringRoom, Holds, AuxOf, RuntimeAt, Describes;
    ghost var m0, high := stack.mem[..], stack.sp;
    dest, phdr, aux := [], 0, [];
    NoWords(m0, high);
    error := stack.Skip(WORD_BYTES);
    if error {
      return;
    }
    ghost var below := stack.sp;
    error := stack.Write(image.phdrs);
    KeptTwice(m0, m0, stack.mem[..], high, below);
    if error {
      return;
    }
    var atPhdr: Word := stack.sp;
    phdr := atPhdr;
    ghost var m1 := stack.mem[..];
    var destArgv;
    error, destArgv := stack.CopyArgs(argv);
    dest := destArgv;
    KeptTwice(m0, m1, stack.mem[..], high, atPhdr);
    if error {
      return;
    }
    StillHolds(m1, stack.mem[..], atPhdr, atPhdr, image.phdrs);
    ghost var m2, low := stack.mem[..], stack.sp;
    var auxv := AuxOf(image, atPhdr);
    aux := auxv;
    AuxDescribes(image, atPhdr);
    var toPush := 5 * WORD_BYTES + 2 * WORD_BYTES * |auxv| + WORD_BYTES * |destArgv|;
    RuntimeParts(destArgv, auxv);
    error := WriteFrame(stack, [[0], [0], AuxWords(auxv), [0], [], [0], destArgv, [|destArgv|]], toPush);
    KeptTwice(m0, m2, stack.mem[..], high, low);
    AuxOfSize(image, atPhdr);
    if !error {
      RuntimeFrameReads(stack.mem[..], stack.sp, dest, aux);
      StringsStay(m2, stack.mem[..], low, atPhdr, argv, dest);
      StringsAbove(stack.mem[..], low, stack.sp + toPush, atPhdr, argv, dest);
      KeptTwice(m2, m2, stack.mem[..], atPhdr, low);
      StillHolds(m2, stack.mem[..], atPhdr, atPhdr, image.phdrs);
    }
  }

  lemma AuxOfSize(image: Image, phdr: Word)
    requires WholePhdrs(image)
    ensures |AuxOf(image, phdr)| <= 8
  {
  }

  lemma RuntimeParts(dest: seq<Word>, aux: seq<Aux>)
    requires |dest| < 0x8000_0000
    ensures FrameOf([[0], [0], AuxWords(aux), [0], [], [0], dest, [|dest|]]) == RuntimeFrame(dest, aux)
    ensures 8 * |RuntimeFrame(dest, aux)| == 5 * WORD_BYTES + 2 * WORD_BYTES * |aux| + WORD_BYTES * |dest|
  {
    hide FrameOf;
    var a := AuxWords(aux);
    PushedLast([[0], [0], a, [0], [], [0], dest, [|dest|]], [[0], [0], a, [0], [], [0], dest], [|dest|]);
    PushedLast([[0], [0], a, [0], [], [0], dest], [[0], [0], a, [0], [], [0]], dest);
    PushedLast([[0], [0], a, [0], [], [0]], [[0], [0], a, [0], []], [0]);
    PushedLast([[0], [0], a, [0], []], [[0], [0], a, [0]], []);
    PushedLast([[0], [0], a, [0]], [[0], [0], a], [0]);
    PushedLast([[0], [0], a], [[0], [0]], a);
    PushedLast([[0], [0]], [[0]], [0]);
    PushedLast([[0]], [], [0]);
    assert FrameOf([[0], [0]]) == [0, 0];
  }
}
