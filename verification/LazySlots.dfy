/** Where the slots of the operand stack are: the first one at the start of the area, and
    each of the others at the next multiple of its size behind the one below. */
module LazySlots {
  import opened LazyMachine
  import opened LazyStack

  /** The lowest multiple of the type's size that is not below `end`. */
  predicate NextMultiple(end: int, ty: Ty, off: int) {
    end <= off && off % Size(ty) == 0 && forall o :: end <= o && o % Size(ty) == 0 ==> off <= o
  }

  /** Entry `j` lies where it should. */
  ghost predicate Tight(s: seq<Entry>, j: nat, first: int)
    requires j < |s|
  {
    if j == 0 then s[j].off == first else NextMultiple(s[j - 1].off + Size(s[j - 1].ty), s[j].ty, s[j].off)
  }

  /** No gap anywhere. */
  ghost predicate Gapless(s: seq<Entry>, first: int) {
    forall j :: 0 <= j < |s| ==> Tight(s, j, first)
  }

  /** The lowest `k` entries have the slots they had. */
  predicate SameSlots(s: seq<Entry>, t: seq<Entry>, k: nat) {
    k <= |s| && k <= |t| && forall j :: 0 <= j < k ==> t[j].off == s[j].off && t[j].ty == s[j].ty
  }

  /** Entries have left from the top and others have come: those lie where they should. */
  ghost predicate Laid(s: seq<Entry>, t: seq<Entry>, first: int) {
    exists k: nat :: SameSlots(s, t, k) && forall j :: k <= j < |t| ==> Tight(t, j, first)
  }

  lemma LaidSame(s: seq<Entry>, t: seq<Entry>, first: int)
    requires |t| <= |s| && SameSlots(s, t, |t|)
    ensures Laid(s, t, first)
  {
  }

  lemma LaidPop(s: seq<Entry>, k: nat, first: int)
    requires k <= |s|
    ensures Laid(s, s[..k], first)
  {
    LaidSame(s, s[..k], first);
  }

  lemma LaidThen(s: seq<Entry>, t: seq<Entry>, u: seq<Entry>, first: int)
    requires Laid(s, t, first) && Laid(t, u, first)
    ensures Laid(s, u, first)
  {
    hide NextMultiple;
    var a: nat :| SameSlots(s, t, a) && forall j :: a <= j < |t| ==> Tight(t, j, first);
    var b: nat :| SameSlots(t, u, b) && forall j :: b <= j < |u| ==> Tight(u, j, first);
    var k := if a < b then a else b;
    forall j | k <= j < |u|
      ensures Tight(u, j, first)
    {
      assert j < b ==> Tight(t, j, first);
    }
    assert SameSlots(s, u, k);
  }

  /** A result pushed on what is left below the operands. */
  lemma LaidPush(s: seq<Entry>, k: nat, e: Entry, first: int)
    requires k <= |s| && Slots(s, first) && e.off == NextSlot(s[..k], e.ty, first)
    ensures Laid(s, s[..k] + [e], first)
  {
    hide NextMultiple, AlignUp;
    var t := s[..k] + [e];
    if k > 0 {
      assert s[..k][k - 1] == s[k - 1];
      AlignedNext(s[k - 1].off + Size(s[k - 1].ty), e.ty);
    }
    assert SameSlots(s, t, k) && Tight(t, k, first);
  }

  lemma AlignedNext(end: int, ty: Ty)
    requires end % 4 == 0
    ensures NextMultiple(end, ty, AlignUp(end, ty))
  {
    hide AlignUp;
    AlignUpFits(end, ty);
    var a := AlignUp(end, ty);
    forall o | end <= o && o % Size(ty) == 0
      ensures a <= o
    {
      if o < a {
        MultiplesApart(o, a, ty);
      }
    }
  }

  lemma MultiplesApart(o: int, a: int, ty: Ty)
    requires o < a && o % Size(ty) == 0 && a % Size(ty) == 0
    ensures o + Size(ty) <= a
  {
    if ty.I32? {
      FourApart(o, a);
    } else {
      EightApart(o, a);
    }
  }

  lemma FourApart(o: int, a: int)
    requires o < a && o % 4 == 0 && a % 4 == 0
    ensures o + 4 <= a
  {
  }

  lemma EightApart(o: int, a: int)
    requires o < a && o % 8 == 0 && a % 8 == 0
    ensures o + 8 <= a
  {
  }

  /** A stack without gaps stays one. */
  lemma LaidGapless(s: seq<Entry>, t: seq<Entry>, first: int)
    requires Laid(s, t, first) && Gapless(s, first)
    ensures Gapless(t, first)
  {
    hide NextMultiple;
    var k: nat :| SameSlots(s, t, k) && forall j :: k <= j < |t| ==> Tight(t, j, first);
    forall j | 0 <= j < |t|
      ensures Tight(t, j, first)
    {
      assert j < k ==> Tight(s, j, first);
    }
  }
}
