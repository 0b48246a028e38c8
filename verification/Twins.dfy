/** Machines that differ in one value alone, and code that moves other values. */
module Twins {
  import opened LazyMachine

  /** Where two machines may differ: scratch register `r` (none when negative) and word
      `o` of the slot of a value of type `ty` at `off`. */
  datatype Gap = Gap(r: int, ty: Ty, off: int, o: int)

  function Raw(m: Machine, r: int): int {
    if r >= 0 && r in m.regs then m.regs[r] else 0
  }

  /** The words of two values that do not go to the gap. */
  predicate OtherHalf(g: Gap, v: int, x: int) {
    && (g.off != g.o ==> v % WORD == x % WORD)
    && (g.ty.I64? && g.off + 4 != g.o ==> v / WORD % WORD == x / WORD % WORD)
  }

  /** The same registers but `r`, and the same values on the machine stack. */
  ghost predicate Common(g: Gap, m: Machine, n: Machine) {
    && (forall q: int :: q != g.r ==> Raw(m, q) == Raw(n, q))
    && forall p :: Word(m.locals, p) == Word(n.locals, p)
  }

  ghost predicate Twin(g: Gap, m: Machine, n: Machine) {
    && Common(g, m, n)
    && (forall p :: p != g.o ==> Word(m.frame, p) == Word(n.frame, p))
    && OtherHalf(g, Raw(m, g.r), Raw(n, g.r))
  }

  /** The difference is gone but for the register. */
  ghost predicate Same(g: Gap, m: Machine, n: Machine) {
    Common(g, m, n) && forall p :: Word(m.frame, p) == Word(n.frame, p)
  }

  /** The value does not come from the gap. */
  predicate Avoids(g: Gap, ty: Ty, l: Loc) {
    && (l.Reg? ==> l.r != g.r)
    && (l.Frame? ==> l.off % 4 == 0 && (g.o < l.off || l.off + Size(ty) <= g.o))
  }

  lemma TwinRead(g: Gap, m: Machine, n: Machine, ty: Ty, l: Loc)
    requires Twin(g, m, n) && Avoids(g, ty, l) && g.o % 4 == 0
    ensures Read(m, ty, l) == Read(n, ty, l)
  {
    if l.Reg? {
      assert Raw(m, l.r) == Raw(n, l.r);
    } else if l.Frame? {
      WordsApart(l.off, ty, g.o);
      assert Word(m.frame, l.off) == Word(n.frame, l.off);
      assert ty.I64? ==> Word(m.frame, l.off + 4) == Word(n.frame, l.off + 4);
    } else if l.Local? {
      assert Word(m.locals, l.off) == Word(n.locals, l.off) && Word(m.locals, l.off + 4) == Word(n.locals, l.off + 4);
    }
  }

  lemma WordsApart(off: int, ty: Ty, o: int)
    requires off % 4 == 0 && o % 4 == 0 && (o < off || off + Size(ty) <= o)
    ensures off != o && (ty.I64? ==> off + 4 != o)
  {
  }

  lemma SameRead(g: Gap, m: Machine, n: Machine, ty: Ty, l: Loc)
    requires Same(g, m, n) && (l.Reg? ==> l.r != g.r)
    ensures Read(m, ty, l) == Read(n, ty, l)
  {
    if l.Reg? {
      assert Raw(m, l.r) == Raw(n, l.r);
    } else if l.Frame? {
      assert Word(m.frame, l.off) == Word(n.frame, l.off) && Word(m.frame, l.off + 4) == Word(n.frame, l.off + 4);
    } else if l.Local? {
      assert Word(m.locals, l.off) == Word(n.locals, l.off) && Word(m.locals, l.off + 4) == Word(n.locals, l.off + 4);
    }
  }

  // ------------------------------------------------------------ moves into a slot

  lemma PutWords(m: Machine, ty: Ty, off: int, v: int)
    ensures var w := Write(m, ty, Frame(off), v);
      && w.regs == m.regs && w.locals == m.locals
      && forall p ::
        Word(w.frame, p) ==
          if p == off then v % WORD
          else if ty.I64? && p == off + 4 then v / WORD % WORD
          else Word(m.frame, p)
  {
  }

  lemma SameRegisters(g: Gap, m: Machine, n: Machine, a: Machine, b: Machine)
    requires Common(g, m, n) && a.regs == m.regs && b.regs == n.regs && a.locals == m.locals && b.locals == n.locals
    ensures Common(g, a, b) && Raw(a, g.r) == Raw(m, g.r) && Raw(b, g.r) == Raw(n, g.r)
  {
    forall q: int | q != g.r
      ensures Raw(a, q) == Raw(b, q)
    {
      assert Raw(m, q) == Raw(n, q);
    }
  }

  lemma TwinPut(g: Gap, m: Machine, n: Machine, ty: Ty, off: int, v: int)
    requires Twin(g, m, n)
    ensures Twin(g, Write(m, ty, Frame(off), v), Write(n, ty, Frame(off), v))
  {
    hide Write, Word, Common, OtherHalf;
    PutWords(m, ty, off, v);
    PutWords(n, ty, off, v);
    SameRegisters(g, m, n, Write(m, ty, Frame(off), v), Write(n, ty, Frame(off), v));
  }

  lemma SamePut(g: Gap, m: Machine, n: Machine, ty: Ty, off: int, v: int)
    requires Same(g, m, n)
    ensures Same(g, Write(m, ty, Frame(off), v), Write(n, ty, Frame(off), v))
  {
    hide Write, Word, Common;
    PutWords(m, ty, off, v);
    PutWords(n, ty, off, v);
    SameRegisters(g, m, n, Write(m, ty, Frame(off), v), Write(n, ty, Frame(off), v));
  }

  /** Writing the same value over the gap closes it. */
  lemma ClosePut(g: Gap, m: Machine, n: Machine, ty: Ty, off: int, v: int)
    requires Twin(g, m, n) && (off == g.o || (ty.I64? && off + 4 == g.o))
    ensures Same(g, Write(m, ty, Frame(off), v), Write(n, ty, Frame(off), v))
  {
    hide Write, Word, Common, OtherHalf;
    PutWords(m, ty, off, v);
    PutWords(n, ty, off, v);
    SameRegisters(g, m, n, Write(m, ty, Frame(off), v), Write(n, ty, Frame(off), v));
  }

  /** Saving the value itself moves the difference from the register to the slot. */
  lemma OwnPut(g: Gap, m: Machine, n: Machine, v: int, x: int)
    requires Twin(g, m, n) && OtherHalf(g, v, x)
    ensures Twin(g, Write(m, g.ty, Frame(g.off), v), Write(n, g.ty, Frame(g.off), x))
  {
    hide Write, Word, Common;
    PutWords(m, g.ty, g.off, v);
    PutWords(n, g.ty, g.off, x);
    SameRegisters(g, m, n, Write(m, g.ty, Frame(g.off), v), Write(n, g.ty, Frame(g.off), x));
  }

  ghost predicate TwinKept(g: Gap, es: seq<Emit>) {
    forall m, n :: Twin(g, m, n) ==> Twin(g, Run(es, m), Run(es, n))
  }

  lemma TwinNothing(g: Gap)
    ensures TwinKept(g, [])
  {
  }

  lemma TwinKeptThen(g: Gap, es: seq<Emit>, fs: seq<Emit>)
    requires TwinKept(g, es) && TwinKept(g, fs)
    ensures TwinKept(g, es + fs)
  {
    hide Twin, Run;
    forall m, n | Twin(g, m, n)
      ensures Twin(g, Run(es + fs, m), Run(es + fs, n))
    {
      RunConcat(es, fs, m);
      RunConcat(es, fs, n);
    }
  }

  lemma MoveStep(ty: Ty, off: int, l: Loc, m: Machine)
    ensures Run([Move(ty, Frame(off), l)], m) == Write(m, ty, Frame(off), Read(m, ty, l))
  {
    RunOne(Move(ty, Frame(off), l), m);
  }

  lemma OtherTwins(g: Gap, ty: Ty, off: int, l: Loc)
    requires Avoids(g, ty, l) && g.o % 4 == 0
    ensures TwinKept(g, [Move(ty, Frame(off), l)])
  {
    hide Twin, Run, Avoids, Write, Read;
    forall m, n | Twin(g, m, n)
      ensures Twin(g, Run([Move(ty, Frame(off), l)], m), Run([Move(ty, Frame(off), l)], n))
    {
      MoveStep(ty, off, l, m);
      MoveStep(ty, off, l, n);
      TwinRead(g, m, n, ty, l);
      TwinPut(g, m, n, ty, off, Read(m, ty, l));
    }
  }

  lemma OwnTwins(g: Gap)
    requires g.r >= 0
    ensures TwinKept(g, [Move(g.ty, Frame(g.off), Reg(g.r))])
  {
    hide Twin, Run, Write, Read;
    forall m, n | Twin(g, m, n)
      ensures Twin(g, Run([Move(g.ty, Frame(g.off), Reg(g.r))], m), Run([Move(g.ty, Frame(g.off), Reg(g.r))], n))
    {
      MoveStep(g.ty, g.off, Reg(g.r), m);
      MoveStep(g.ty, g.off, Reg(g.r), n);
      RawRead(g, m, n);
      OwnPut(g, m, n, Read(m, g.ty, Reg(g.r)), Read(n, g.ty, Reg(g.r)));
    }
  }

  lemma RawRead(g: Gap, m: Machine, n: Machine)
    requires g.r >= 0 && Twin(g, m, n)
    ensures OtherHalf(g, Read(m, g.ty, Reg(g.r)), Read(n, g.ty, Reg(g.r)))
  {
  }
}
