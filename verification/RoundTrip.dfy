/** Entry followed by exit on an untouched page. */
module RoundTrip {
  import opened Bytes
  import opened EntryTranslation
  import opened ExitTranslation
  import opened SegmentRights
  import opened ShadowVmcs
  import opened Vmcb
  import opened Vmx

  /** What a guest field becomes after an entry and an exit. */
  function NormalValue(s: Slot, v: bv64): bv64 {
    match s
    case Segment(_, Selector) => Keep(2, v)
    case Segment(_, Limit) => Keep(4, v)
    case Segment(_, Attrib) => Wide32(Normal(Low32(v)))
    case Efer => WithoutSvme(v)
    case _ => v
  }

  lemma ClearAfterSet(v: bv64, svme: bv64)
    requires svme == v | 0x1000
    ensures svme & 0xFFFF_FFFF_FFFF_EFFF == v & 0xFFFF_FFFF_FFFF_EFFF
  {
  }

  lemma SetAfterClear(v: bv64, cleared: bv64)
    requires cleared == v & 0xFFFF_FFFF_FFFF_EFFF
    ensures cleared | 0x1000 == v | 0x1000
  {
  }

  lemma SvmeCleared(v: bv64)
    ensures WithoutSvme(WithSvme(v)) == WithoutSvme(v)
  {
    ClearAfterSet(v, WithSvme(v));
  }

  lemma SvmeRestored(v: bv64)
    ensures WithSvme(WithoutSvme(v)) == WithSvme(v)
  {
    SetAfterClear(v, WithoutSvme(v));
  }

  lemma AttribFits(a: bv16)
    ensures Keep(2, Wide16(a)) == Wide16(a)
  {
  }

  lemma AttribWide(a: bv16)
    ensures ArOfAttrib(Wide16(a)) == Wide32(SvmAttribToVmxAr(a))
  {
    hide SvmAttribToVmxAr;
  }

  lemma WideInjective(a: bv16, b: bv16)
    requires Wide16(a) == Wide16(b)
    ensures a == b
  {
  }

  lemma AttribThroughSlot(v: bv64)
    ensures ArOfAttrib(Keep(2, Wide16(VmxArToSvmAttrib(Low32(v))))) == Wide32(Normal(Low32(v)))
  {
    hide VmxArToSvmAttrib, SvmAttribToVmxAr, Low32, Keep, ArOfAttrib, Wide16, Wide32;
    AttribFits(VmxArToSvmAttrib(Low32(v)));
    AttribWide(VmxArToSvmAttrib(Low32(v)));
  }

  /** The conversions into and out of a slot compose to the normal form. */
  lemma ThroughSlot(s: Slot, v: bv64)
    requires WrittenBack(s)
    ensures FromSlot(s, Fit(s, IntoSlot(s, v))) == NormalValue(s, v)
  {
    hide VmxArToSvmAttrib, Low32, ArOfAttrib, Normal, WithSvme, WithoutSvme, Wide16, Wide32;
    match s
    case Segment(_, Attrib) => AttribThroughSlot(v);
    case Efer => SvmeCleared(v);
    case _ =>
  }

  lemma AttribStable(x: bv64)
    ensures ArOfAttrib(Keep(2, Wide16(VmxArToSvmAttrib(Low32(ArOfAttrib(x)))))) == ArOfAttrib(x)
  {
    hide VmxArToSvmAttrib, SvmAttribToVmxAr, Low32, Low16, Keep, Normal, Wide16, Wide32;
    AttribThroughSlot(ArOfAttrib(x));
    LowOfWide(SvmAttribToVmxAr(Low16(x)));
    AttribNormal(Low16(x));
  }

  /** A slot value that has been out and in again comes out the same the second time. */
  lemma SlotStable(s: Slot, x: bv64)
    requires WrittenBack(s) && Fit(s, x) == x
    ensures FromSlot(s, Fit(s, IntoSlot(s, FromSlot(s, x)))) == FromSlot(s, x)
  {
    hide VmxArToSvmAttrib, Low32, ArOfAttrib, WithSvme, WithoutSvme;
    match s
    case Segment(_, Attrib) => AttribStable(x);
    case Efer => SvmeRestored(x); SvmeCleared(x);
    case _ =>
  }

  lemma KeepAll(v: bv64)
    ensures Keep(8, v) == v
  {
  }

  lemma SvmeTwice(v: bv64)
    ensures WithSvme(WithSvme(v)) == WithSvme(v)
  {
  }

  lemma AttribReturns(ar: bv32)
    ensures Keep(2, Wide16(VmxArToSvmAttrib(Low32(Wide32(Normal(ar)))))) == Keep(2, Wide16(VmxArToSvmAttrib(ar)))
            <==> RightsKept(ar)
  {
    hide VmxArToSvmAttrib, Low32, Keep, Normal, Wide16, Wide32;
    hide RightsKept;
    AttribKept(ar);
    LowOfWide(Normal(ar));
    AttribFits(VmxArToSvmAttrib(ar));
    AttribFits(VmxArToSvmAttrib(Normal(ar)));
    if Wide16(VmxArToSvmAttrib(ar)) == Wide16(VmxArToSvmAttrib(Normal(ar))) {
      WideInjective(VmxArToSvmAttrib(ar), VmxArToSvmAttrib(Normal(ar)));
    }
  }

  /** Going out and in again restores the slot, except for an attribute whose rights are not kept. */
  lemma SlotReturns(s: Slot, v: bv64, x: bv64)
    requires WrittenBack(s) && x == Fit(s, IntoSlot(s, v)) && Fit(s, x) == x
    ensures Fit(s, IntoSlot(s, FromSlot(s, x))) == x
            <==> (s.Segment? && s.part.Attrib? ==> RightsKept(Low32(v)))
  {
    hide VmxArToSvmAttrib, Low32, ArOfAttrib, WithSvme, WithoutSvme, Normal, RightsKept, Wide16, Wide32, Keep;
    match s
    case Segment(_, Attrib) =>
      AttribThroughSlot(v);
      AttribReturns(Low32(v));
    case Efer =>
      KeepAll(WithSvme(v));
      KeepAll(WithSvme(WithoutSvme(WithSvme(v))));
      SvmeRestored(WithSvme(v));
      SvmeTwice(v);
    case _ =>
  }

  /** A field that is missing reads as 0, which is its normal form too unless it is an access-rights field:
      there 0 is a usable segment without the present bit, and its normal form is unusable. */
  lemma MissingField(s: Slot)
    requires WrittenBack(s)
    ensures NormalValue(s, 0) == 0 <==> !(s.Segment? && s.part.Attrib?)
  {
    if s.Segment? && s.part.Attrib? {
      MissingRights();
    }
  }

  lemma MissingRights()
    ensures Wide32(Normal(Low32(0))) == 0x1_0000
  {
  }

  /** Entry and exit on an untouched page put every field that is stored in normal form and leave all but
      the exit's own fields alone. A written-back field that is not stored reads as 0, as it did before,
      and only for access rights is that not the normal form. */
  lemma TranslationRoundTrip(m: Store, p: Page, features: bv32)
    requires |m| <= MAX_FIELDS
    ensures var m' := Exit(m, Enter(m, p), features);
      && (forall s: Slot :: WrittenBack(s) ==>
            Lookup(m', GuestField(s).value) == if SlotStored(m, s) then NormalValue(s, Lookup(m, GuestField(s).value)) else 0)
      && (forall s: Slot :: WrittenBack(s) ==>
            (Lookup(m', GuestField(s).value) == NormalValue(s, Lookup(m, GuestField(s).value))
             <==> SlotStored(m, s) || !(s.Segment? && s.part.Attrib?)))
      && (forall e :: !ExitEncoding(e) ==> Lookup(m', e) == Lookup(m, e))
  {
    hide GuestField, Lookup, NormalValue, FromSlot, IntoSlot, Fit, EntryValue, Enter, Exit, SlotStored;
    var q := Enter(m, p);
    forall s: Slot | WrittenBack(s)
      ensures var e := GuestField(s).value;
        && Lookup(Exit(m, q, features), e) == (if SlotStored(m, s) then NormalValue(s, Lookup(m, e)) else 0)
        && (Lookup(Exit(m, q, features), e) == NormalValue(s, Lookup(m, e))
            <==> SlotStored(m, s) || !(s.Segment? && s.part.Attrib?))
    {
      FieldRoundTrip(m, p, features, s);
    }
    forall e | !ExitEncoding(e)
      ensures Lookup(Exit(m, q, features), e) == Lookup(m, e)
    {
      ExitKeeps(m, q, features, e);
    }
  }

  lemma FieldRoundTrip(m: Store, p: Page, features: bv32, s: Slot)
    requires |m| <= MAX_FIELDS && WrittenBack(s)
    ensures var m', e := Exit(m, Enter(m, p), features), GuestField(s).value;
      && Lookup(m', e) == (if SlotStored(m, s) then NormalValue(s, Lookup(m, e)) else 0)
      && (Lookup(m', e) == NormalValue(s, Lookup(m, e)) <==> SlotStored(m, s) || !(s.Segment? && s.part.Attrib?))
  {
    hide Lookup, NormalValue, FromSlot, IntoSlot, Fit, EntryValue, Enter, Exit, SlotStored, Get;
    EnterIsEntered(m, p);
    SlotReadsExactly(m, Enter(m, p), features, s);
    GuestEntry(m, s);
    ThroughSlot(s, Lookup(m, GuestField(s).value));
    MissingField(s);
  }
}
