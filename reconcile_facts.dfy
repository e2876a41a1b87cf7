/**
 * What get_requirements promises its caller: every requirement of the
 * template appears once, met by a course that fits it or marked
 * unplanned; the met ones come first; every planned course is used once
 * or listed as an extra; the only exception is IndexError on "CSC".
 */
module ReconcileFacts {
  import opened Wrappers
  import opened Text
  import opened Lists
  import opened Requirements
  import opened Reconciliation

  /** The values of a completed slot loop: fitting courses, then unplanned markers, with nothing lost. */
  lemma FinishValues(start: State, st: State)
    requires WellFormed(start) && Invariant(start, |start.requirements|, st)
    requires forall j :: 0 <= j < |start.reqs| ==> Fills(start.reqs[j].0, start.reqs[j].1)
    ensures var r, m := Finish(st), |st.reqs| + |st.requirements|;
      && m <= |r|
      && (forall j :: 0 <= j < |st.reqs| ==> Fills(r[j].0, r[j].1) && r[j].1 != Unplanned)
      && (forall j :: |st.reqs| <= j < m ==> r[j].1 == Unplanned)
      && multiset(Values(st.reqs)) + multiset(st.planned) == multiset(Values(start.reqs)) + multiset(start.planned)
  {
    var r, lead := Finish(st), |start.reqs|;
    FinalRequirementKeys(start, st);
    KeysValuesConcat(st.reqs[..lead], st.reqs[lead..]);
    assert st.reqs == st.reqs[..lead] + st.reqs[lead..];
    forall j | 0 <= j < |st.reqs|
      ensures Fills(r[j].0, r[j].1) && r[j].1 != Unplanned
    {
      assert r[j] == st.reqs[j];
      if j < lead {
        assert st.reqs[j] == start.reqs[j];
      }
      assert r[j].0 == Keys(st.reqs)[j];
      assert r[j].0 in Keys(st.reqs) + st.requirements;
    }
  }

  /** The CSC5201 pass and the completed slot loop behind a reconciliation that does not raise. */
  lemma Completed(classList: Plan, needCsc5610: bool, needMth5810: bool, r: Reqs) returns (start: State, st: State)
    requires Reconcile(classList, needCsc5610, needMth5810) == Ok(r)
    ensures start == FamilyPass(Template(needCsc5610, needMth5810), Flatten(classList))
    ensures BindAll(start.requirements, start) == Ok(st) && r == Finish(st)
  {
    start := FamilyPass(Template(needCsc5610, needMth5810), Flatten(classList));
    st := BindAll(start.requirements, start).value;
  }

  lemma CompletedInv(start: State, st: State)
    requires WellFormed(start) && BindAll(start.requirements, start) == Ok(st)
    ensures Invariant(start, |start.requirements|, st)
  {
    BindAllInv(start, |start.requirements|);
    assert start.requirements[..|start.requirements|] == start.requirements;
  }

  /** The first eight entries of the answer up to the end of the requirements. */
  lemma FinishSplit(start: State, st: State, r: Reqs)
    requires WellFormed(start) && Invariant(start, |start.requirements|, st) && r == Finish(st)
    requires |start.reqs| + |start.requirements| == 8
    ensures |st.reqs| + |st.requirements| == 8 <= |r|
    ensures r[..8] == st.reqs + UnplannedFor(st.requirements) && r[8..] == Extras(st.planned)
    ensures Keys(r[..8]) == Keys(st.reqs) + st.requirements
  {
    FinalRequirementKeys(start, st);
    assert |multiset(Keys(st.reqs) + st.requirements)| == |multiset(Keys(start.reqs))| + |multiset(start.requirements)|;
    KeysValuesConcat(st.reqs, UnplannedFor(st.requirements));
    assert Keys(UnplannedFor(st.requirements)) == st.requirements;
  }

  /** Keys of the answer assembled from a completed slot loop. */
  lemma FinishLabels(start: State, st: State, r: Reqs)
    requires WellFormed(start) && Invariant(start, |start.requirements|, st) && r == Finish(st)
    requires |start.reqs| + |start.requirements| == 8
    ensures |r| >= 8
    ensures multiset(Keys(r[..8])) == multiset(Keys(start.reqs)) + multiset(start.requirements)
    ensures Distinct(Keys(r))
    ensures forall j :: 8 <= j < |r| ==> r[j].0 == ExtraLabel(j - 7)
  {
    FinishSplit(start, st, r);
    FinalRequirementKeys(start, st);
    FinishDistinct(start, st);
  }

  /** Values of the answer assembled from a completed slot loop. */
  lemma FinishConserves(start: State, st: State, r: Reqs)
    requires WellFormed(start) && Invariant(start, |start.requirements|, st) && r == Finish(st)
    requires |start.reqs| + |start.requirements| == 8
    requires forall j :: 0 <= j < |start.reqs| ==> Fills(start.reqs[j].0, start.reqs[j].1)
    ensures |r| >= 8
    ensures multiset(Except(Values(r[..8]), [Unplanned])) + multiset(Values(r[8..]))
      == multiset(Values(start.reqs)) + multiset(start.planned)
  {
    FinishSplit(start, st, r);
    FinishValues(start, st);
    forall j | 0 <= j < |st.reqs|
      ensures st.reqs[j].1 != Unplanned
    {
      assert r[j] == st.reqs[j];
    }
    DropUnplanned(st.reqs, st.requirements);
    assert Values(r[8..]) == st.planned;
  }

  /** Dropping the unplanned markers leaves the courses that were used. */
  lemma DropUnplanned(reqs: Reqs, open: seq<string>)
    requires forall j :: 0 <= j < |reqs| ==> reqs[j].1 != Unplanned
    ensures Except(Values(reqs + UnplannedFor(open)), [Unplanned]) == Values(reqs)
  {
    var u := UnplannedFor(open);
    KeysValuesConcat(reqs, u);
    ExceptConcat(Values(reqs), Values(u), [Unplanned]);
    ExceptNothing(Values(reqs), [Unplanned]);
    ExceptEverything(Values(u), [Unplanned]);
  }

  /**
   * Lines 110-139: the answer names each requirement of the template
   * exactly once in its first eight entries and then lists extra courses
   * numbered from 1, so no key repeats.
   */
  lemma ReconcileLabels(classList: Plan, needCsc5610: bool, needMth5810: bool, r: Reqs)
    requires Reconcile(classList, needCsc5610, needMth5810) == Ok(r)
    ensures |r| >= 8
    ensures multiset(Keys(r[..8])) == multiset(Template(needCsc5610, needMth5810))
    ensures Distinct(Keys(r))
    ensures forall j :: 8 <= j < |r| ==> r[j].0 == ExtraLabel(j - 7)
  {
    var start, st := Completed(classList, needCsc5610, needMth5810, r);
    FamilyPassWellFormed(needCsc5610, needMth5810, Flatten(classList));
    FamilyPassConserves(needCsc5610, needMth5810, Flatten(classList));
    CompletedInv(start, st);
    FinishLabels(start, st, r);
  }

  /** The order of the keys of the answer assembled from a completed slot loop. */
  lemma FinishOrder(start: State, st: State, r: Reqs)
    requires WellFormed(start) && Invariant(start, |start.requirements|, st) && r == Finish(st)
    requires |start.reqs| + |start.requirements| == 8
    ensures |st.reqs| <= 8 <= |r| && Keys(st.reqs) == Keys(r[..|st.reqs|])
    ensures Keys(r[..8]) == Keys(start.reqs) + Only(start.requirements, Keys(st.reqs))
                                             + Except(start.requirements, Keys(st.reqs))
  {
    FinishSplit(start, st, r);
    var s := start.requirements;
    MetKeys(start, |s|, st);
    assert st.requirements == Except(s, Keys(st.reqs)) by {
      assert s[..|s|] == s && s[|s|..] == [];
    }
    assert r[..|st.reqs|] == st.reqs by {
      assert r[..8][..|st.reqs|] == r[..|st.reqs|];
    }
  }

  /**
   * Lines 114-139: the order of the first eight keys. After the CSC5201 entry
   * come the requirements the slot loop met, in template order, and then the
   * ones it left open, also in template order.
   */
  lemma ReconcileOrder(classList: Plan, needCsc5610: bool, needMth5810: bool, r: Reqs)
    returns (start: State, st: State)
    requires Reconcile(classList, needCsc5610, needMth5810) == Ok(r)
    ensures start == FamilyPass(Template(needCsc5610, needMth5810), Flatten(classList))
    ensures BindAll(start.requirements, start) == Ok(st) && r == Finish(st)
    ensures |st.reqs| <= 8 <= |r| && Keys(st.reqs) == Keys(r[..|st.reqs|])
    ensures Keys(r[..8]) == Keys(start.reqs) + Only(start.requirements, Keys(st.reqs))
                                             + Except(start.requirements, Keys(st.reqs))
  {
    start, st := Completed(classList, needCsc5610, needMth5810, r);
    FamilyPassWellFormed(needCsc5610, needMth5810, Flatten(classList));
    FamilyPassConserves(needCsc5610, needMth5810, Flatten(classList));
    CompletedInv(start, st);
    FinishOrder(start, st, r);
  }

  /**
   * Lines 110-135: each requirement is either met by a course that fits it
   * or marked unplanned, and the met ones come first.
   */
  lemma ReconcileFills(classList: Plan, needCsc5610: bool, needMth5810: bool, r: Reqs)
    requires Reconcile(classList, needCsc5610, needMth5810) == Ok(r)
    ensures |r| >= 8
    ensures forall j :: 0 <= j < 8 && r[j].1 != Unplanned ==> Fills(r[j].0, r[j].1)
    ensures forall j, k :: 0 <= j < k < 8 && r[j].1 == Unplanned ==> r[k].1 == Unplanned
  {
    var start, st := Completed(classList, needCsc5610, needMth5810, r);
    FamilyPassFacts(needCsc5610, needMth5810, Flatten(classList));
    CompletedInv(start, st);
    FinishSplit(start, st, r);
    FinishValues(start, st);
  }

  /** An elective left open in an answer assembled from a completed slot loop leaves no advanced extra. */
  lemma FinishExhausted(start: State, st: State, r: Reqs)
    requires WellFormed(start) && Invariant(start, |start.requirements|, st) && r == Finish(st)
    requires |start.reqs| + |start.requirements| == 8
    requires forall j :: 0 <= j < |start.reqs| ==> Fills(start.reqs[j].0, start.reqs[j].1)
    requires Exhausted(start.requirements, st)
    ensures |r| >= 8
    ensures forall j, k ::
      (0 <= j < 8 <= k < |r| && IsElectiveSlot(r[j].0) && r[j].1 == Unplanned) ==> !IsAdvanced(r[k].1)
  {
    FinishSplit(start, st, r);
    FinishValues(start, st);
    var s, keys := start.requirements, Keys(st.reqs);
    MetKeys(start, |s|, st);
    assert st.requirements == Except(s, keys) by {
      assert s[..|s|] == s && s[|s|..] == [];
    }
    forall j, k | 0 <= j < 8 <= k < |r| && IsElectiveSlot(r[j].0) && r[j].1 == Unplanned
      ensures !IsAdvanced(r[k].1)
    {
      var e := r[j].0;
      assert |st.reqs| <= j;
      assert r[j] == UnplannedFor(st.requirements)[j - |st.reqs|];
      assert e in st.requirements;
      OnlyExceptMember(s, keys, e);
      assert r[k] == Extras(st.planned)[k - 8];
      assert r[k].1 in st.planned;
    }
  }

  /**
   * Lines 123-135: an elective requirement is reported "unplanned" only when
   * no advanced course is left over; so no extra course could have met it.
   */
  lemma ReconcileElectivesExhaust(classList: Plan, needCsc5610: bool, needMth5810: bool, r: Reqs)
    requires Reconcile(classList, needCsc5610, needMth5810) == Ok(r)
    ensures |r| >= 8
    ensures forall j, k ::
      (0 <= j < 8 <= k < |r| && IsElectiveSlot(r[j].0) && r[j].1 == Unplanned) ==> !IsAdvanced(r[k].1)
  {
    var start, st := Completed(classList, needCsc5610, needMth5810, r);
    FamilyPassFacts(needCsc5610, needMth5810, Flatten(classList));
    FamilyPassConserves(needCsc5610, needMth5810, Flatten(classList));
    CompletedInv(start, st);
    BindAllExhausted(start.requirements, start);
    FinishExhausted(start, st, r);
  }

  /** Every planned course is used for one requirement or listed as an extra, and nothing else appears. */
  lemma ReconcileConserves(classList: Plan, needCsc5610: bool, needMth5810: bool, r: Reqs)
    requires Reconcile(classList, needCsc5610, needMth5810) == Ok(r)
    ensures |r| >= 8
    ensures multiset(Except(Values(r[..8]), [Unplanned])) + multiset(Values(r[8..])) == multiset(Flatten(classList))
  {
    var start, st := Completed(classList, needCsc5610, needMth5810, r);
    FamilyPassFacts(needCsc5610, needMth5810, Flatten(classList));
    CompletedInv(start, st);
    FinishConserves(start, st, r);
  }

  /** Lines 122-124: the one exception is IndexError, raised by a planned entry "CSC". */
  lemma ReconcileRaises(classList: Plan, needCsc5610: bool, needMth5810: bool, e: ReconcileError)
    requires Reconcile(classList, needCsc5610, needMth5810) == Err(e)
    ensures e == IndexError("CSC") && "CSC" in Flatten(classList)
  {
    var pool := Flatten(classList);
    var start := FamilyPass(Template(needCsc5610, needMth5810), pool);
    FamilyPassWellFormed(needCsc5610, needMth5810, pool);
    BindAllError(start, |start.requirements|);
    assert start.requirements[..|start.requirements|] == start.requirements;
    assert start.planned == pool || start.planned == RemoveFirst(pool, FamilyChoice(pool).value);
    RemoveFirstSubset(pool, if FamilyChoice(pool).Some? then FamilyChoice(pool).value else "", "CSC");
  }

  lemma {:induction false} BindAllError(start: State, i: nat)
    requires WellFormed(start) && i <= |start.requirements|
    ensures BindAll(start.requirements[..i], start).Err? ==>
      BindAll(start.requirements[..i], start).error == IndexError("CSC") && "CSC" in start.planned
  {
    var s := start.requirements;
    if i == 0 {
      assert s[..0] == [];
    } else {
      assert s[..i][..i - 1] == s[..i - 1];
      BindAllError(start, i - 1);
      BindAllInv(start, i - 1);
      var prev := BindAll(s[..i - 1], start);
      if prev.Ok? && Step(prev.value, s[i - 1]).Err? {
        var st := prev.value;
        assert "CSC" in st.planned;
        assert multiset(st.planned)["CSC"] > 0;
        assert multiset(start.planned)["CSC"] > 0;
      }
    }
  }

  /** An entry that is not unplanned, on the left of a conserved split, comes from the pool. */
  lemma UsedFromPool(used: seq<string>, extra: seq<string>, pool: seq<string>, j: nat)
    requires multiset(Except(used, [Unplanned])) + multiset(extra) == multiset(pool)
    requires j < |used| && used[j] != Unplanned
    ensures used[j] in pool
  {
    var x, kept := used[j], Except(used, [Unplanned]);
    assert x in used && x !in [Unplanned];
    OnlyExceptMember(used, [Unplanned], x);
    assert x in multiset(kept);
    assert multiset(kept) <= multiset(pool);
    assert x in multiset(pool);
  }

  /** Every course the answer uses for a requirement fits it and was planned. */
  lemma UsedCourses(classList: Plan, needCsc5610: bool, needMth5810: bool, r: Reqs)
    requires Reconcile(classList, needCsc5610, needMth5810) == Ok(r)
    ensures |r| >= 8
    ensures forall j :: 0 <= j < 8 && r[j].1 != Unplanned ==> Fills(r[j].0, r[j].1) && r[j].1 in Flatten(classList)
  {
    ReconcileFills(classList, needCsc5610, needMth5810, r);
    ReconcileConserves(classList, needCsc5610, needMth5810, r);
    var used := Values(r[..8]);
    forall j | 0 <= j < 8 && r[j].1 != Unplanned
      ensures r[j].1 in Flatten(classList)
    {
      assert used[j] == r[j].1;
      UsedFromPool(used, Values(r[8..]), Flatten(classList), j);
    }
  }

  /** A requirement that no planned course fits is marked unplanned. */
  lemma UnplannedWhenNothingFits(classList: Plan, needCsc5610: bool, needMth5810: bool, r: Reqs, c: string)
    requires Reconcile(classList, needCsc5610, needMth5810) == Ok(r)
    requires c in Template(needCsc5610, needMth5810)
    requires forall v :: v in Flatten(classList) ==> !Fills(c, v)
    ensures (c, Unplanned) in r
  {
    ReconcileLabels(classList, needCsc5610, needMth5810, r);
    UsedCourses(classList, needCsc5610, needMth5810, r);
    assert c in multiset(Keys(r[..8]));
    var j :| 0 <= j < 8 && Keys(r[..8])[j] == c;
    assert r[j] == (c, Unplanned);
  }

  /**
   * Lines 112-120: CSC5201 is met first, by the first of CSC5201, CSC6711
   * and CSC6712 that is planned, and is unplanned when none is.
   */
  lemma ReconcileFamily(classList: Plan, needCsc5610: bool, needMth5810: bool, r: Reqs)
    requires Reconcile(classList, needCsc5610, needMth5810) == Ok(r)
    ensures |r| >= 8
    ensures FamilyChoice(Flatten(classList)).Some? ==> r[0] == (FamilySlot, FamilyChoice(Flatten(classList)).value)
    ensures FamilyChoice(Flatten(classList)).None? ==> (FamilySlot, Unplanned) in r
  {
    ReconcileConserves(classList, needCsc5610, needMth5810, r);
    if FamilyChoice(Flatten(classList)).Some? {
      FamilyFirst(classList, needCsc5610, needMth5810, r);
    } else {
      TemplateFacts(needCsc5610, needMth5810);
      FamilyAbsent(Flatten(classList));
      UnplannedWhenNothingFits(classList, needCsc5610, needMth5810, r, FamilySlot);
    }
  }

  /** When no CSC5201 alternative is planned, nothing planned fills CSC5201. */
  lemma FamilyAbsent(pool: seq<string>)
    requires FamilyChoice(pool).None?
    ensures forall v :: v in pool ==> !Fills(FamilySlot, v)
  {
    assert FamilySlot[4] != Elective[4];
    assert !IsElectiveSlot(FamilySlot);
  }

  lemma FamilyFirst(classList: Plan, needCsc5610: bool, needMth5810: bool, r: Reqs)
    requires Reconcile(classList, needCsc5610, needMth5810) == Ok(r)
    requires FamilyChoice(Flatten(classList)).Some?
    ensures |r| > 0 && r[0] == (FamilySlot, FamilyChoice(Flatten(classList)).value)
  {
    var start, st := Completed(classList, needCsc5610, needMth5810, r);
    TemplateFacts(needCsc5610, needMth5810);
    FamilyPassSome(Template(needCsc5610, needMth5810), Flatten(classList), FamilyChoice(Flatten(classList)).value);
    FamilyPassWellFormed(needCsc5610, needMth5810, Flatten(classList));
    CompletedInv(start, st);
    assert st.reqs[..1] == start.reqs;
    assert r[0] == st.reqs[0];
  }

  /** With nothing planned, every requirement is unplanned and there are no extras. */
  lemma ReconcileNothingPlanned(classList: Plan, needCsc5610: bool, needMth5810: bool)
    requires Flatten(classList) == []
    ensures Reconcile(classList, needCsc5610, needMth5810) == Ok(UnplannedFor(Template(needCsc5610, needMth5810)))
  {
    var t := Template(needCsc5610, needMth5810);
    var start := FamilyPass(t, []);
    assert start == State([], t, []);
    NothingToBind(start, |t|);
    assert t[..|t|] == t;
    assert Finish(start) == UnplannedFor(t);
  }

  lemma {:induction false} NothingToBind(start: State, i: nat)
    requires start.planned == [] && i <= |start.requirements|
    ensures BindAll(start.requirements[..i], start) == Ok(start)
  {
    if i > 0 {
      NothingToBind(start, i - 1);
      assert start.requirements[..i][..i - 1] == start.requirements[..i - 1];
    }
  }

  /**
   * Lines 121-133 for a named requirement other than CSC5201: it is met by
   * the course of the same name exactly when that course is planned, and
   * is unplanned otherwise.
   */
  lemma ReconcileNamedCourse(classList: Plan, needCsc5610: bool, needMth5810: bool, r: Reqs, c: string)
    requires Reconcile(classList, needCsc5610, needMth5810) == Ok(r)
    requires c in Template(needCsc5610, needMth5810) && !IsElectiveSlot(c) && c !in FamilyCodes
    ensures c in Flatten(classList) ==> (c, c) in r
    ensures c !in Flatten(classList) ==> (c, Unplanned) in r
  {
    if c in Flatten(classList) {
      NamedPlanned(classList, needCsc5610, needMth5810, r, c);
    } else {
      UnplannedWhenNothingFits(classList, needCsc5610, needMth5810, r, c);
    }
  }

  lemma NamedPlanned(classList: Plan, needCsc5610: bool, needMth5810: bool, r: Reqs, c: string)
    requires Reconcile(classList, needCsc5610, needMth5810) == Ok(r)
    requires c in Template(needCsc5610, needMth5810) && !IsElectiveSlot(c) && c !in FamilyCodes
    requires c in Flatten(classList)
    ensures (c, c) in r
  {
    var t, pool := Template(needCsc5610, needMth5810), Flatten(classList);
    var start, st := Completed(classList, needCsc5610, needMth5810, r);
    var s := start.requirements;
    FamilyPassWellFormed(needCsc5610, needMth5810, pool);
    assert c in s && c in start.planned && ElectivesLast(s) by {
      TemplateElectivesLast(needCsc5610, needMth5810);
      ElectivesLastRemove(t, FamilySlot);
      match FamilyChoice(pool)
      case Some(f) =>
        RemoveFirstKeeps(t, FamilySlot, c);
        RemoveFirstKeeps(pool, f, c);
      case None =>
    }
    var p :| 0 <= p < |s| && s[p] == c;
    NamedBound(start, c, p, |s|);
    assert s[..|s|] == s;
  }
}
