/**
 * get_requirements (msml.py:94-140): reconcile a student's planned courses
 * against the degree requirements. The planned courses of every term are
 * pooled; the CSC5201 requirement is met first by the first of CSC5201,
 * CSC6711 and CSC6712, in that order, that is planned; then each open
 * requirement, in template order, takes the course of the same name or,
 * for an elective slot, the first planned entry that starts with "CSC"
 * and whose fourth character is a digit of at least 5 (a bare "CSC"
 * reached by that scan raises IndexError); what stays open is
 * "unplanned" and what stays in the pool is listed as "Extra course n".
 */
module Reconciliation {
  import opened Wrappers
  import opened Text
  import opened Lists
  import opened Requirements

  /** Courses planned per term, as get_class_list returns them. */
  type Plan = seq<(string, seq<string>)>

  /** The reconciliation, an insertion-ordered dict from requirement to course. */
  type Reqs = seq<(string, string)>

  const Unplanned: string := "unplanned"

  /** The requirement that any course of FamilyCodes meets. */
  const FamilySlot: string := "CSC5201"

  const FamilyCodes: seq<string> := ["CSC5201", "CSC6711", "CSC6712"]

  /** The one exception the reconciliation can raise: `opt[3]` on the planned entry "CSC". */
  datatype ReconcileError = IndexError(entry: string)

  /** A slot numbered from the elective placeholder. */
  predicate IsElectiveSlot(crs: string)
  {
    StartsWith(crs, Elective)
  }

  /** Line 124: a CSC course whose fourth character is a digit of at least 5. */
  predicate IsAdvanced(x: string)
  {
    StartsWith(x, "CSC") && |x| > 3 && IsDigit(x[3]) && DigitValue(x[3]) >= 5
  }

  /** A planned entry the elective scan steps over without raising. */
  predicate Skipped(x: string)
  {
    !IsAdvanced(x) && x != "CSC"
  }

  /** A course the slot loop may bind to a slot: the same course, or an advanced course for an elective. */
  predicate Accepts(slot: string, course: string)
  {
    if IsElectiveSlot(slot) then IsAdvanced(course) else course == slot
  }

  /** A course that meets a requirement, counting the CSC5201 alternatives. */
  predicate Fills(slot: string, course: string)
  {
    (slot == FamilySlot && course in FamilyCodes) || Accepts(slot, course)
  }

  /** Lines 113-120: the first of FamilyCodes that is planned. */
  function FamilyChoice(pool: seq<string>): (c: Option<string>)
    ensures c.Some? ==> c.value in FamilyCodes && c.value in pool
    ensures c.None? <==> forall f :: f in FamilyCodes ==> f !in pool
    ensures forall i :: 0 <= i < |FamilyCodes| && c == Some(FamilyCodes[i]) ==>
      forall j :: 0 <= j < i ==> FamilyCodes[j] !in pool
  {
    if FamilyCodes[0] in pool then Some(FamilyCodes[0])
    else if FamilyCodes[1] in pool then Some(FamilyCodes[1])
    else if FamilyCodes[2] in pool then Some(FamilyCodes[2])
    else None
  }

  /**
   * Lines 123-128: the index of the first advanced course among the
   * planned ones, or the IndexError that `opt[3]` raises when the scan
   * reaches "CSC" first.
   */
  function FindElective(planned: seq<string>): (r: Result<Option<nat>, ReconcileError>)
    ensures r.Ok? && r.value.Some? ==>
      r.value.value < |planned| && IsAdvanced(planned[r.value.value])
      && forall j :: 0 <= j < r.value.value ==> Skipped(planned[j])
    ensures r.Ok? && r.value.None? ==> forall j :: 0 <= j < |planned| ==> Skipped(planned[j])
    ensures r.Err? ==> r.error == IndexError("CSC") && "CSC" in planned
    ensures r.Err? ==> exists i :: 0 <= i < |planned| && planned[i] == "CSC" && forall j :: 0 <= j < i ==> Skipped(planned[j])
  {
    if planned == [] then Ok(None)
    else if planned[0] == "CSC" then Err(IndexError("CSC"))
    else if IsAdvanced(planned[0]) then Ok(Some(0))
    else
      match FindElective(planned[1..])
      case Err(e) =>
        ghost var i :| 0 <= i < |planned[1..]| && planned[1..][i] == "CSC" && forall j :: 0 <= j < i ==> Skipped(planned[1..][j]);
        assert planned[i + 1] == "CSC";
        Err(e)
      case Ok(None) => Ok(None)
      case Ok(Some(i)) => Ok(Some(i + 1))
  }

  /** The state of lines 110-133: the answer so far, the open requirements and the unused planned courses. */
  datatype State = State(reqs: Reqs, requirements: seq<string>, planned: seq<string>)

  /** Lines 117-119, 125-127 and 131-133: record that crs is met by opt and remove both. */
  function Bind(st: State, crs: string, opt: string): State
  {
    State(st.reqs + [(crs, opt)], RemoveFirst(st.requirements, crs), RemoveFirst(st.planned, opt))
  }

  /** Lines 112-120: the CSC5201 pass. */
  function FamilyPass(template: seq<string>, pool: seq<string>): State
  {
    match FamilyChoice(pool)
    case Some(f) => Bind(State([], template, pool), FamilySlot, f)
    case None => State([], template, pool)
  }

  /** Lines 121-133 for one requirement crs. */
  function Step(st: State, crs: string): Result<State, ReconcileError>
  {
    if IsElectiveSlot(crs) then
      match FindElective(st.planned)
      case Err(e) => Err(e)
      case Ok(None) => Ok(st)
      case Ok(Some(k)) => Ok(Bind(st, crs, st.planned[k]))
    else if crs in st.planned then Ok(Bind(st, crs, crs))
    else Ok(st)
  }

  /** Lines 121-133: Step over the given requirements in order, stopping at the first error. */
  function BindAll(slots: seq<string>, start: State): Result<State, ReconcileError>
  {
    if slots == [] then Ok(start)
    else
      match BindAll(slots[..|slots| - 1], start)
      case Err(e) => Err(e)
      case Ok(st) => Step(st, slots[|slots| - 1])
  }

  function ExtraLabel(n: nat): string
  {
    "Extra course " + NatToString(n)
  }

  /** Lines 134-135: every open requirement marked unplanned. */
  function UnplannedFor(requirements: seq<string>): Reqs
  {
    seq(|requirements|, i requires 0 <= i < |requirements| => (requirements[i], Unplanned))
  }

  /** Lines 136-139: the unused courses, numbered from 1. */
  function Extras(planned: seq<string>): Reqs
  {
    seq(|planned|, i requires 0 <= i < |planned| => (ExtraLabel(i + 1), planned[i]))
  }

  function Finish(st: State): Reqs
  {
    st.reqs + UnplannedFor(st.requirements) + Extras(st.planned)
  }

  /** What get_requirements returns, or the exception it raises. */
  function Reconcile(classList: Plan, needCsc5610: bool, needMth5810: bool): Result<Reqs, ReconcileError>
  {
    var start := FamilyPass(Template(needCsc5610, needMth5810), Flatten(classList));
    match BindAll(start.requirements, start)
    case Err(e) => Err(e)
    case Ok(st) => Ok(Finish(st))
  }

  /** Lines 100-107: the requirement list, built and numbered in place. */
  method BuildRequirements(needCsc5610: bool, needMth5810: bool) returns (requirements: seq<string>)
    ensures requirements == Template(needCsc5610, needMth5810)
  {
    requirements := CoreSlots;
    if needCsc5610 {
      requirements := ["CSC5610"] + requirements;
    } else {
      requirements := requirements + [Elective];
    }
    requirements := requirements + [if needMth5810 then "MTH5810" else Elective];
    var li := new string[|requirements|](i requires 0 <= i < |requirements| => requirements[i]);
    assert li[..] == Unnumbered(needCsc5610, needMth5810);
    MakeElectivesUnique(li);
    requirements := li[..];
  }

  /** Lines 113-120: meet CSC5201 with the first planned alternative, if any. */
  method MeetFamily(template: seq<string>, pool: seq<string>)
    returns (reqs: Reqs, requirements: seq<string>, planned: seq<string>)
    ensures State(reqs, requirements, planned) == FamilyPass(template, pool)
  {
    reqs, requirements, planned := [], template, pool;
    var k := 0;
    while k < |FamilyCodes|
      invariant k <= |FamilyCodes|
      invariant forall j :: 0 <= j < k ==> FamilyCodes[j] !in pool
      invariant reqs == [] && requirements == template && planned == pool
    {
      var opt := FamilyCodes[k];
      if opt in planned {
        reqs := Put(reqs, FamilySlot, opt);
        requirements := RemoveFirst(requirements, FamilySlot);
        planned := RemoveFirst(planned, opt);
        assert FamilyChoice(pool) == Some(opt);
        break;
      }
      k := k + 1;
    }
    assert reqs == [] ==> FamilyChoice(pool) == None;
  }

  /** Lines 123-128: scan the planned courses for the first advanced one. */
  method ScanForElective(planned: seq<string>) returns (r: Result<Option<nat>, ReconcileError>)
    ensures r == FindElective(planned)
  {
    var m := 0;
    while m < |planned|
      invariant m <= |planned|
      invariant forall j :: 0 <= j < m ==> Skipped(planned[j])
    {
      var opt := planned[m];
      if StartsWith(opt, "CSC") && |opt| <= 3 {
        // opt[3] is out of range
        assert opt == opt[..3];
        return Err(IndexError(opt));
      }
      if StartsWith(opt, "CSC") && IsDigit(opt[3]) && DigitValue(opt[3]) >= 5 {
        return Ok(Some(m));
      }
      m := m + 1;
    }
    return Ok(None);
  }

  /** Lines 121-133: visit a copy of the open requirements in order and meet each one the plan can. */
  method MeetSlots(start: State) returns (r: Result<State, ReconcileError>)
    requires WellFormed(start)
    ensures r == BindAll(start.requirements, start)
  {
    var reqs, requirements, planned := start.reqs, start.requirements, start.planned;
    var slots := requirements;
    for i := 0 to |slots|
      invariant BindAll(slots[..i], start) == Ok(State(reqs, requirements, planned))
    {
      var crs := slots[i];
      ghost var st := State(reqs, requirements, planned);
      SlotFresh(start, i, st);
      if StartsWith(crs, Elective) {
        var found := ScanForElective(planned);
        match found
        case Err(e) =>
          BindAllStopped(slots, start, i + 1);
          assert slots[..|slots|] == slots;
          return Err(e);
        case Ok(None) =>
        case Ok(Some(m)) =>
          var opt := planned[m];
          reqs := Put(reqs, crs, opt);
          requirements := RemoveFirst(requirements, crs);
          planned := RemoveFirst(planned, opt);
      } else if crs in planned {
        reqs := Put(reqs, crs, crs);
        requirements := RemoveFirst(requirements, crs);
        planned := RemoveFirst(planned, crs);
      }
    }
    assert slots[..|slots|] == slots;
    return Ok(State(reqs, requirements, planned));
  }

  /** Lines 134-135: mark each open requirement unplanned. */
  method MarkUnplanned(reqs0: Reqs, requirements: seq<string>) returns (reqs: Reqs)
    requires Distinct(Keys(reqs0 + UnplannedFor(requirements)))
    ensures reqs == reqs0 + UnplannedFor(requirements)
  {
    ghost var answer := reqs0 + UnplannedFor(requirements);
    reqs := reqs0;
    assert answer[..|reqs0|] == reqs0;
    for i := 0 to |requirements|
      invariant reqs == answer[..|reqs0| + i]
    {
      ghost var m := |reqs0| + i;
      DistinctKeysPrefix(answer, m);
      assert answer[m] == (requirements[i], Unplanned);
      assert answer[..m + 1] == answer[..m] + [answer[m]];
      reqs := Put(reqs, requirements[i], Unplanned);
    }
    assert answer[..|answer|] == answer;
  }

  /** Lines 136-139: list the unused courses as extras, numbered from 1. */
  method ListExtras(reqs0: Reqs, planned: seq<string>) returns (reqs: Reqs)
    requires Distinct(Keys(reqs0 + Extras(planned)))
    ensures reqs == reqs0 + Extras(planned)
  {
    ghost var answer := reqs0 + Extras(planned);
    reqs := reqs0;
    assert answer[..|reqs0|] == reqs0;
    var ex := 0;
    for i := 0 to |planned|
      invariant ex == i
      invariant reqs == answer[..|reqs0| + i]
    {
      ex := ex + 1;
      ghost var m := |reqs0| + i;
      DistinctKeysPrefix(answer, m);
      assert answer[m] == ("Extra course " + NatToString(ex), planned[i]);
      assert answer[..m + 1] == answer[..m] + [answer[m]];
      reqs := Put(reqs, "Extra course " + NatToString(ex), planned[i]);
    }
    assert answer[..|answer|] == answer;
  }

  /** Lines 134-139: the open requirements marked unplanned, then the unused courses. */
  method Conclude(final: State) returns (reqs: Reqs)
    requires Distinct(Keys(Finish(final)))
    ensures reqs == Finish(final)
  {
    var done := final.reqs + UnplannedFor(final.requirements);
    KeysValuesConcat(done, Extras(final.planned));
    DistinctConcat(Keys(done), Keys(Extras(final.planned)));
    reqs := MarkUnplanned(final.reqs, final.requirements);
    reqs := ListExtras(reqs, final.planned);
  }

  /** Lines 94-140. */
  method GetRequirements(classList: Plan, needCsc5610: bool, needMth5810: bool)
    returns (result: Result<Reqs, ReconcileError>)
    ensures result == Reconcile(classList, needCsc5610, needMth5810)
  {
    var requirements := BuildRequirements(needCsc5610, needMth5810);
    var planned := Flatten(classList);
    var reqs;
    reqs, requirements, planned := MeetFamily(requirements, planned);
    var start := State(reqs, requirements, planned);
    FamilyPassWellFormed(needCsc5610, needMth5810, Flatten(classList));
    var met := MeetSlots(start);
    match met
    case Err(e) =>
      return Err(e);
    case Ok(final) =>
      CompletedDistinct(start, final);
      reqs := Conclude(final);
      return Ok(reqs);
  }

  /** Requirement i is not yet a key when the loop reaches it, and the loop's next state is one Step on. */
  lemma SlotFresh(start: State, i: nat, st: State)
    requires WellFormed(start) && i < |start.requirements|
    requires BindAll(start.requirements[..i], start) == Ok(st)
    ensures start.requirements[i] !in Keys(st.reqs)
    ensures BindAll(start.requirements[..i + 1], start) == Step(st, start.requirements[i])
  {
    BindAllInv(start, i);
    MetKeys(start, i, st);
    assert start.requirements[..i + 1][..i] == start.requirements[..i];
  }

  /** The answer assembled from a completed slot loop has no repeated key. */
  lemma CompletedDistinct(start: State, final: State)
    requires WellFormed(start) && BindAll(start.requirements, start) == Ok(final)
    ensures Distinct(Keys(Finish(final)))
  {
    BindAllInv(start, |start.requirements|);
    assert start.requirements[..|start.requirements|] == start.requirements;
    FinishDistinct(start, final);
  }

  /** Once a prefix of the requirements raises, so do all of them. */
  lemma {:induction false} BindAllStopped(slots: seq<string>, start: State, i: nat)
    requires i <= |slots| && BindAll(slots[..i], start).Err?
    ensures BindAll(slots, start) == BindAll(slots[..i], start)
    decreases |slots| - i
  {
    if i < |slots| {
      assert slots[..i + 1][..i] == slots[..i];
      BindAllStopped(slots, start, i + 1);
    } else {
      assert slots[..i] == slots;
    }
  }

  /** The state after the CSC5201 pass is one the slot loop can start from. */
  ghost predicate WellFormed(start: State)
  {
    && Distinct(Keys(start.reqs))
    && Distinct(start.requirements)
    && (forall x :: x in Keys(start.reqs) ==> x !in start.requirements)
    && (forall x :: x in Keys(start.reqs) + start.requirements ==> SlotLabel(x))
  }

  /** A requirement name cannot be mistaken for an extra course or for the unplanned marker. */
  predicate SlotLabel(x: string)
  {
    |x| > 0 && x[0] != 'E' && x != Unplanned
  }

  /** The answer extends the one the slot loop started from. */
  ghost predicate Extends(start: State, st: State)
  {
    |start.reqs| <= |st.reqs| && st.reqs[..|start.reqs|] == start.reqs
  }

  /**
   * After the first i requirements: the new keys are the requirements met
   * so far, in order, and the open requirements are the unmet ones
   * followed by those not yet visited.
   */
  ghost predicate Met(start: State, i: nat, st: State)
    requires i <= |start.requirements| && Extends(start, st)
  {
    var s := start.requirements;
    && Keys(st.reqs[|start.reqs|..]) == Only(s[..i], Keys(st.reqs))
    && st.requirements == Except(s[..i], Keys(st.reqs)) + s[i..]
  }

  /** Every course used since start came from start's pool. */
  ghost predicate Conserved(start: State, st: State)
    requires Extends(start, st)
  {
    multiset(Values(st.reqs[|start.reqs|..])) + multiset(st.planned) == multiset(start.planned)
  }

  /** Every course used since start fits its requirement. */
  ghost predicate Fitting(start: State, st: State)
    requires Extends(start, st)
  {
    forall j :: |start.reqs| <= j < |st.reqs| ==> Accepts(st.reqs[j].0, st.reqs[j].1)
  }

  ghost predicate Invariant(start: State, i: nat, st: State)
    requires i <= |start.requirements|
  {
    Extends(start, st) && Met(start, i, st) && Conserved(start, st) && Fitting(start, st)
  }

  /** The keys of a Met state: start's, then met requirements, without repeats. */
  lemma MetKeys(start: State, i: nat, st: State)
    requires WellFormed(start) && i <= |start.requirements| && Extends(start, st) && Met(start, i, st)
    ensures Keys(st.reqs) == Keys(start.reqs) + Only(start.requirements[..i], Keys(st.reqs))
    ensures Distinct(Keys(st.reqs))
    ensures forall j :: i <= j < |start.requirements| ==> start.requirements[j] !in Keys(st.reqs)
  {
    var s, lead, k := start.requirements, |start.reqs|, Keys(st.reqs);
    assert st.reqs == start.reqs + st.reqs[lead..];
    KeysValuesConcat(start.reqs, st.reqs[lead..]);
    var o := Only(s[..i], k);
    assert s == s[..i] + s[i..];
    DistinctConcat(s[..i], s[i..]);
    OnlyExceptDistinct(s[..i], k);
    forall x | x in Keys(start.reqs)
      ensures x !in o
    {
      OnlyExceptMember(s[..i], k, x);
    }
    DistinctConcat(Keys(start.reqs), o);
    forall j | i <= j < |s|
      ensures s[j] !in k
    {
      OnlyExceptMember(s[..i], k, s[j]);
      assert s[j] in s[i..];
    }
  }

  lemma InvariantInit(start: State)
    ensures Invariant(start, 0, start)
  {
    var lead := |start.reqs|;
    assert start.reqs[lead..] == [];
    assert start.requirements[..0] == [];
    assert start.requirements[0..] == start.requirements;
  }

  /** Leaving requirement i open keeps the Invariant. */
  lemma SkipInv(start: State, i: nat, st: State)
    requires WellFormed(start) && i < |start.requirements| && Invariant(start, i, st)
    ensures Invariant(start, i + 1, st)
  {
    SkipMet(start, i, st);
  }

  lemma SkipMet(start: State, i: nat, st: State)
    requires WellFormed(start) && i < |start.requirements| && Extends(start, st) && Met(start, i, st)
    ensures Met(start, i + 1, st)
  {
    var s, k := start.requirements, Keys(st.reqs);
    assert s[i] !in k by {
      MetKeys(start, i, st);
    }
    assert Only(s[..i + 1], k) == Only(s[..i], k) && Except(s[..i + 1], k) == Except(s[..i], k) + [s[i]] by {
      assert s[..i + 1] == s[..i] + [s[i]];
      OnlyExceptSnocOut(s[..i], s[i], k);
    }
    assert s[i..] == [s[i]] + s[i + 1..];
  }

  lemma BindExtends(start: State, st: State, crs: string, opt: string)
    requires Extends(start, st)
    ensures Extends(start, Bind(st, crs, opt))
    ensures Bind(st, crs, opt).reqs[|start.reqs|..] == st.reqs[|start.reqs|..] + [(crs, opt)]
  {
    var st' := Bind(st, crs, opt);
    assert st'.reqs[..|start.reqs|] == st.reqs[..|start.reqs|];
  }

  lemma BindConserved(start: State, st: State, crs: string, opt: string)
    requires Extends(start, st) && Conserved(start, st) && opt in st.planned
    ensures Extends(start, Bind(st, crs, opt)) && Conserved(start, Bind(st, crs, opt))
  {
    var lead := |start.reqs|;
    BindExtends(start, st, crs, opt);
    KeysValuesConcat(st.reqs[lead..], [(crs, opt)]);
    RemoveFirstMultiset(st.planned, opt);
  }

  lemma BindFitting(start: State, st: State, crs: string, opt: string)
    requires Extends(start, st) && Fitting(start, st) && Accepts(crs, opt)
    ensures Extends(start, Bind(st, crs, opt)) && Fitting(start, Bind(st, crs, opt))
  {
    BindExtends(start, st, crs, opt);
  }

  /** Requirement i is new among the keys and among the requirements before it. */
  lemma BindFresh(start: State, i: nat, st: State)
    requires WellFormed(start) && i < |start.requirements| && Extends(start, st) && Met(start, i, st)
    ensures start.requirements[i] !in Keys(st.reqs) && start.requirements[i] !in start.requirements[..i]
  {
    var s := start.requirements;
    MetKeys(start, i, st);
    assert s == s[..i] + s[i..];
    DistinctConcat(s[..i], s[i..]);
    assert s[i] in s[i..];
  }

  lemma BindMetKeys(start: State, i: nat, st: State, opt: string)
    requires i < |start.requirements| && Extends(start, st)
    requires start.requirements[i] !in Keys(st.reqs) && start.requirements[i] !in start.requirements[..i]
    requires Keys(st.reqs[|start.reqs|..]) == Only(start.requirements[..i], Keys(st.reqs))
    ensures Extends(start, Bind(st, start.requirements[i], opt))
    ensures Keys(Bind(st, start.requirements[i], opt).reqs[|start.reqs|..])
      == Only(start.requirements[..i + 1], Keys(Bind(st, start.requirements[i], opt).reqs))
  {
    var s, k, lead, crs := start.requirements, Keys(st.reqs), |start.reqs|, start.requirements[i];
    var st' := Bind(st, crs, opt);
    BindExtends(start, st, crs, opt);
    KeysValuesConcat(st.reqs, [(crs, opt)]);
    var k' := k + [crs];
    assert Keys(st'.reqs) == k';
    assert s[..i + 1] == s[..i] + [crs];
    OnlyExceptAgree(s[..i], k, k');
    OnlyExceptSnocIn(s[..i], crs, k');
    KeysValuesConcat(st.reqs[lead..], [(crs, opt)]);
  }

  lemma BindMetOpen(start: State, i: nat, st: State, opt: string)
    requires i < |start.requirements|
    requires start.requirements[i] !in Keys(st.reqs) && start.requirements[i] !in start.requirements[..i]
    requires st.requirements == Except(start.requirements[..i], Keys(st.reqs)) + start.requirements[i..]
    ensures Bind(st, start.requirements[i], opt).requirements
      == Except(start.requirements[..i + 1], Keys(st.reqs) + [start.requirements[i]]) + start.requirements[i + 1..]
  {
    var s, k, crs := start.requirements, Keys(st.reqs), start.requirements[i];
    var k' := k + [crs];
    var e, w := Except(s[..i], k), s[i + 1..];
    assert st.requirements == e + [crs] + w by {
      assert s[i..] == [crs] + w;
    }
    assert crs !in e by {
      OnlyExceptMember(s[..i], k, crs);
    }
    RemoveFirstSplit(e, crs, w);
    assert Except(s[..i + 1], k') == e by {
      assert s[..i + 1] == s[..i] + [crs];
      OnlyExceptAgree(s[..i], k, k');
      OnlyExceptSnocIn(s[..i], crs, k');
    }
  }

  lemma BindMet(start: State, i: nat, st: State, opt: string)
    requires WellFormed(start) && i < |start.requirements| && Extends(start, st) && Met(start, i, st)
    ensures Extends(start, Bind(st, start.requirements[i], opt))
    ensures Met(start, i + 1, Bind(st, start.requirements[i], opt))
  {
    var crs := start.requirements[i];
    var st' := Bind(st, crs, opt);
    BindFresh(start, i, st);
    BindMetKeys(start, i, st, opt);
    BindMetOpen(start, i, st, opt);
    assert Keys(st'.reqs) == Keys(st.reqs) + [crs] by {
      KeysValuesConcat(st.reqs, [(crs, opt)]);
    }
    assert st'.requirements == Except(start.requirements[..i + 1], Keys(st'.reqs)) + start.requirements[i + 1..];
  }

  /** Meeting requirement i with a course it accepts keeps the Invariant. */
  lemma BindInv(start: State, i: nat, st: State, opt: string)
    requires WellFormed(start) && i < |start.requirements| && Invariant(start, i, st)
    requires opt in st.planned && Accepts(start.requirements[i], opt)
    ensures Invariant(start, i + 1, Bind(st, start.requirements[i], opt))
  {
    var crs := start.requirements[i];
    BindMet(start, i, st, opt);
    BindConserved(start, st, crs, opt);
    BindFitting(start, st, crs, opt);
  }

  lemma StepInv(start: State, i: nat, st: State)
    requires WellFormed(start) && i < |start.requirements| && Invariant(start, i, st)
    ensures Step(st, start.requirements[i]).Ok? ==> Invariant(start, i + 1, Step(st, start.requirements[i]).value)
  {
    var crs := start.requirements[i];
    if IsElectiveSlot(crs) {
      match FindElective(st.planned)
      case Err(_) =>
      case Ok(None) => SkipInv(start, i, st);
      case Ok(Some(m)) => BindInv(start, i, st, st.planned[m]);
    } else if crs in st.planned {
      BindInv(start, i, st, crs);
    } else {
      SkipInv(start, i, st);
    }
  }

  lemma {:induction false} BindAllInv(start: State, i: nat)
    requires WellFormed(start) && i <= |start.requirements|
    ensures BindAll(start.requirements[..i], start).Ok? ==>
      Invariant(start, i, BindAll(start.requirements[..i], start).value)
  {
    var s := start.requirements;
    if i == 0 {
      assert s[..0] == [];
      InvariantInit(start);
    } else {
      BindAllInv(start, i - 1);
      assert s[..i][..i - 1] == s[..i - 1];
      var prev := BindAll(s[..i - 1], start);
      if prev.Ok? {
        StepInv(start, i - 1, prev.value);
      }
    }
  }

  /**
   * Once a visited elective slot has stayed open, the pool holds nothing
   * the elective scan would take: a slot stays open only when its scan
   * found nothing (lines 123-128), and later steps only shrink the pool.
   */
  ghost predicate Exhausted(slots: seq<string>, st: State)
  {
    (exists j :: 0 <= j < |slots| && IsElectiveSlot(slots[j]) && slots[j] !in Keys(st.reqs))
      ==> forall x :: x in st.planned ==> Skipped(x)
  }

  /** Binding adds crs to the keys and takes one course from the pool. */
  lemma BindShrinks(st: State, crs: string, opt: string)
    ensures Keys(Bind(st, crs, opt).reqs) == Keys(st.reqs) + [crs]
    ensures forall x :: x in Bind(st, crs, opt).planned ==> x in st.planned
  {
    forall x | x in Bind(st, crs, opt).planned
      ensures x in st.planned
    {
      RemoveFirstSubset(st.planned, opt, x);
    }
  }

  /** One step keeps the earlier keys and takes courses only from the pool. */
  lemma StepShrinks(st: State, crs: string)
    requires Step(st, crs).Ok?
    ensures var st' := Step(st, crs).value;
      && (forall x :: x in Keys(st.reqs) ==> x in Keys(st'.reqs))
      && (forall x :: x in st'.planned ==> x in st.planned)
      && (IsElectiveSlot(crs) && crs !in Keys(st'.reqs) ==> forall x :: x in st.planned ==> Skipped(x))
  {
    if IsElectiveSlot(crs) {
      match FindElective(st.planned)
      case Err(_) =>
      case Ok(None) =>
      case Ok(Some(k)) => BindShrinks(st, crs, st.planned[k]);
    } else if crs in st.planned {
      BindShrinks(st, crs, crs);
    }
  }

  lemma {:induction false} BindAllExhausted(slots: seq<string>, start: State)
    requires BindAll(slots, start).Ok?
    ensures Exhausted(slots, BindAll(slots, start).value)
  {
    if slots != [] {
      var init, crs := slots[..|slots| - 1], slots[|slots| - 1];
      BindAllExhausted(init, start);
      var prev := BindAll(init, start).value;
      var st := Step(prev, crs).value;
      StepShrinks(prev, crs);
      forall j | 0 <= j < |slots| && IsElectiveSlot(slots[j]) && slots[j] !in Keys(st.reqs)
        ensures forall x :: x in prev.planned ==> Skipped(x)
      {
        if j < |init| {
          assert init[j] == slots[j];
        }
      }
    }
  }

  lemma TemplateLabels(needCsc5610: bool, needMth5810: bool)
    ensures forall x :: x in Template(needCsc5610, needMth5810) ==> SlotLabel(x)
  {
    TemplateShape(needCsc5610, needMth5810);
    assert forall n: nat :: ElectiveLabel(n)[0] == 'C';
  }

  /** When a CSC5201 alternative f is planned, the pass meets CSC5201 with f and removes both. */
  lemma FamilyPassSome(t: seq<string>, pool: seq<string>, f: string)
    requires FamilyChoice(pool) == Some(f) && Distinct(t) && FamilySlot in t
    ensures var start := FamilyPass(t, pool);
      && start.reqs == [(FamilySlot, f)] && Keys(start.reqs) == [FamilySlot] && Values(start.reqs) == [f]
      && Distinct(start.requirements) && FamilySlot !in start.requirements
      && (forall x :: x in start.requirements ==> x in t)
      && multiset(start.requirements) + multiset{FamilySlot} == multiset(t)
      && |start.requirements| + 1 == |t|
      && multiset(start.planned) + multiset{f} == multiset(pool)
  {
    var start := FamilyPass(t, pool);
    assert start.requirements == RemoveFirst(t, FamilySlot);
    RemoveFirstDistinct(t, FamilySlot);
    RemoveFirstLength(t, FamilySlot);
    RemoveFirstMultiset(t, FamilySlot);
    RemoveFirstMultiset(pool, f);
    forall x | x in start.requirements
      ensures x in t
    {
      assert multiset(start.requirements)[x] > 0;
    }
  }

  lemma FamilyPassWellFormed(needCsc5610: bool, needMth5810: bool, pool: seq<string>)
    ensures WellFormed(FamilyPass(Template(needCsc5610, needMth5810), pool))
  {
    var t := Template(needCsc5610, needMth5810);
    TemplateFacts(needCsc5610, needMth5810);
    TemplateLabels(needCsc5610, needMth5810);
    var start := FamilyPass(t, pool);
    match FamilyChoice(pool)
    case None =>
      assert Keys(start.reqs) == [];
    case Some(f) =>
      FamilyPassSome(t, pool, f);
      assert Keys(start.reqs) + start.requirements == [FamilySlot] + start.requirements;
  }

  lemma FamilyPassConserves(needCsc5610: bool, needMth5810: bool, pool: seq<string>)
    ensures var t := Template(needCsc5610, needMth5810);
      var start := FamilyPass(t, pool);
      && multiset(Keys(start.reqs)) + multiset(start.requirements) == multiset(t)
      && |start.reqs| + |start.requirements| == 8
      && multiset(Values(start.reqs)) + multiset(start.planned) == multiset(pool)
  {
    var t := Template(needCsc5610, needMth5810);
    TemplateFacts(needCsc5610, needMth5810);
    var start := FamilyPass(t, pool);
    match FamilyChoice(pool)
    case None =>
      assert Keys(start.reqs) == [] && Values(start.reqs) == [];
    case Some(f) =>
      FamilyPassSome(t, pool, f);
  }

  /**
   * Lines 112-120: the CSC5201 pass leaves a WellFormed state, loses no
   * requirement and no course, and meets CSC5201 with the first planned
   * alternative.
   */
  lemma FamilyPassFacts(needCsc5610: bool, needMth5810: bool, pool: seq<string>)
    ensures var t := Template(needCsc5610, needMth5810);
      var start := FamilyPass(t, pool);
      && WellFormed(start)
      && multiset(Keys(start.reqs)) + multiset(start.requirements) == multiset(t)
      && |start.reqs| + |start.requirements| == 8
      && multiset(Values(start.reqs)) + multiset(start.planned) == multiset(pool)
      && (forall j :: 0 <= j < |start.reqs| ==> Fills(start.reqs[j].0, start.reqs[j].1))
      && (FamilyChoice(pool).Some? ==> start.reqs == [(FamilySlot, FamilyChoice(pool).value)])
      && (FamilyChoice(pool).None? ==> start == State([], t, pool))
  {
    FamilyPassWellFormed(needCsc5610, needMth5810, pool);
    FamilyPassConserves(needCsc5610, needMth5810, pool);
  }

  lemma ExtraLabelInjective(m: nat, n: nat)
    ensures ExtraLabel(m) == ExtraLabel(n) <==> m == n
  {
    var p := "Extra course ";
    assert ExtraLabel(m)[|p|..] == NatToString(m);
    assert ExtraLabel(n)[|p|..] == NatToString(n);
    NatToStringInjective(m, n);
  }

  /** The requirement names of a final state: all met or open requirements, each once. */
  lemma FinalRequirementKeys(start: State, st: State)
    requires WellFormed(start) && Invariant(start, |start.requirements|, st)
    ensures Distinct(Keys(st.reqs) + st.requirements)
    ensures multiset(Keys(st.reqs) + st.requirements) == multiset(Keys(start.reqs)) + multiset(start.requirements)
    ensures forall x :: x in Keys(st.reqs) + st.requirements ==> SlotLabel(x)
  {
    var s, k := start.requirements, Keys(st.reqs);
    MetKeys(start, |s|, st);
    assert st.requirements == Except(s, k) by {
      assert s[..|s|] == s && s[|s|..] == [];
    }
    assert Distinct(k + st.requirements) by {
      OnlyExceptDistinct(s, k);
      forall x | x in k
        ensures x !in st.requirements
      {
        OnlyExceptMember(s, k, x);
      }
      DistinctConcat(k, st.requirements);
    }
    assert multiset(k + st.requirements) == multiset(Keys(start.reqs)) + multiset(s) by {
      assert s[..|s|] == s;
      OnlyExceptPartition(s, k);
    }
    forall x | x in k + st.requirements
      ensures x in Keys(start.reqs) + s
    {
      OnlyExceptMember(s, k, x);
    }
  }

  /** Lines 134-139 after the slot loop: the answer has no repeated key. */
  lemma FinishDistinct(start: State, st: State)
    requires WellFormed(start) && Invariant(start, |start.requirements|, st)
    ensures Distinct(Keys(Finish(st)))
  {
    var a := Keys(st.reqs) + st.requirements;
    var x := Keys(Extras(st.planned));
    FinalRequirementKeys(start, st);
    KeysValuesConcat(st.reqs, UnplannedFor(st.requirements));
    KeysValuesConcat(st.reqs + UnplannedFor(st.requirements), Extras(st.planned));
    assert Keys(UnplannedFor(st.requirements)) == st.requirements;
    assert Keys(Finish(st)) == a + x;
    forall i, j | 0 <= i < j < |x|
      ensures x[i] != x[j]
    {
      ExtraLabelInjective(i + 1, j + 1);
    }
    forall y | y in a
      ensures y !in x
    {
      assert SlotLabel(y);
    }
    DistinctConcat(a, x);
  }

  /**
   * No advanced named requirement comes after an elective slot, so the
   * greedy elective scan never takes a course that a later named
   * requirement needs (the ordering the comment at line 105 relies on).
   */
  predicate ElectivesLast(s: seq<string>)
  {
    forall q, p :: 0 <= q < p < |s| && IsElectiveSlot(s[q]) && !IsElectiveSlot(s[p]) ==> !IsAdvanced(s[p])
  }

  lemma TemplateElectivesLast(needCsc5610: bool, needMth5810: bool)
    ensures ElectivesLast(Template(needCsc5610, needMth5810))
  {
    var t := Template(needCsc5610, needMth5810);
    var n := if needCsc5610 then 6 else 5;
    TemplateNamedFirst(needCsc5610, needMth5810);
    TemplateElectivesAfter(needCsc5610, needMth5810);
    assert !IsAdvanced("MTH5810") by {
      assert "MTH5810"[0] != 'C';
    }
    ElectivesFrom(t, n);
  }

  /** The optional CSC5610 and the five named courses come first. */
  lemma TemplateNamedFirst(needCsc5610: bool, needMth5810: bool)
    ensures var t, n := Template(needCsc5610, needMth5810), if needCsc5610 then 6 else 5;
      forall i :: 0 <= i < n && i < |t| ==> !IsElectiveSlot(t[i])
  {
    TemplateShape(needCsc5610, needMth5810);
    assert "CSC5610"[4] != Elective[4] && "CSC5201"[4] != Elective[4];
    assert "CSC6621"[3] != Elective[3] && "CSC6605"[3] != Elective[3] && "CSC7901"[3] != Elective[3];
    assert "PHL6001"[0] != Elective[0];
  }

  /** After them come only electives, and MTH5810. */
  lemma TemplateElectivesAfter(needCsc5610: bool, needMth5810: bool)
    ensures var t, n := Template(needCsc5610, needMth5810), if needCsc5610 then 6 else 5;
      forall i :: n <= i < |t| ==> t[i] == "MTH5810" || IsElectiveSlot(t[i])
  {
    var t, n := Template(needCsc5610, needMth5810), if needCsc5610 then 6 else 5;
    TemplateShape(needCsc5610, needMth5810);
    forall i | n <= i < |t| && t[i] != "MTH5810"
      ensures IsElectiveSlot(t[i])
    {
      assert t[i][..|Elective|] == Elective;
    }
  }

  /** Electives only from index n on, and nothing advanced among the named slots there. */
  lemma ElectivesFrom(s: seq<string>, n: nat)
    requires forall i :: 0 <= i < n && i < |s| ==> !IsElectiveSlot(s[i])
    requires forall i :: n <= i < |s| ==> IsElectiveSlot(s[i]) || !IsAdvanced(s[i])
    ensures ElectivesLast(s)
  {
  }

  lemma ElectivesLastTail(s: seq<string>)
    requires s != [] && ElectivesLast(s)
    ensures ElectivesLast(s[1..])
  {
    forall q, p | 0 <= q < p < |s| - 1 && IsElectiveSlot(s[1..][q]) && !IsElectiveSlot(s[1..][p])
      ensures !IsAdvanced(s[1..][p])
    {
      assert s[1..][q] == s[q + 1] && s[1..][p] == s[p + 1];
    }
  }

  /** Taking one requirement out keeps the order of the rest. */
  lemma {:induction false} ElectivesLastRemove(s: seq<string>, x: string)
    requires ElectivesLast(s)
    ensures ElectivesLast(RemoveFirst(s, x))
  {
    if s != [] {
      ElectivesLastTail(s);
      if s[0] != x {
        var rest := RemoveFirst(s[1..], x);
        ElectivesLastRemove(s[1..], x);
        var r := RemoveFirst(s, x);
        assert r == [s[0]] + rest;
        forall q, p | 0 <= q < p < |r| && IsElectiveSlot(r[q]) && !IsElectiveSlot(r[p])
          ensures !IsAdvanced(r[p])
        {
          if q == 0 {
            RemoveFirstSubset(s[1..], x, r[p]);
            assert rest[p - 1] == r[p];
            var p' :| 0 <= p' < |s| - 1 && s[1..][p'] == r[p];
            assert s[p' + 1] == r[p];
          } else {
            assert r[q] == rest[q - 1] && r[p] == rest[p - 1];
          }
        }
      }
    }
  }

  /**
   * A named requirement c, at index p of the requirements, whose course is
   * planned stays planned through the steps before it: a named step takes
   * only its own course, and an elective step takes an advanced course,
   * which c is only when no elective comes before it.
   */
  lemma {:induction false} NamedKept(start: State, c: string, p: nat, i: nat)
    requires Distinct(start.requirements) && i <= p < |start.requirements| && start.requirements[p] == c
    requires !IsElectiveSlot(c) && c in start.planned
    requires IsAdvanced(c) ==> forall q :: 0 <= q < p ==> !IsElectiveSlot(start.requirements[q])
    ensures BindAll(start.requirements[..i], start).Ok? ==> c in BindAll(start.requirements[..i], start).value.planned
  {
    if i > 0 {
      var s := start.requirements;
      assert s[..i][..i - 1] == s[..i - 1];
      NamedKept(start, c, p, i - 1);
      var crs := s[i - 1];
      assert s[..i][i - 1] == crs;
      match BindAll(s[..i - 1], start)
      case Err(_) =>
      case Ok(st) =>
        if IsElectiveSlot(crs) {
          match FindElective(st.planned)
          case Ok(Some(k)) =>
            RemoveFirstKeeps(st.planned, st.planned[k], c);
          case _ =>
        } else if crs in st.planned {
          RemoveFirstKeeps(st.planned, crs, c);
        }
    }
  }

  /** ... and so its step meets it with its own course, and later steps only add to the answer. */
  lemma {:induction false} NamedBound(start: State, c: string, p: nat, i: nat)
    requires Distinct(start.requirements) && p < i <= |start.requirements| && start.requirements[p] == c
    requires !IsElectiveSlot(c) && c in start.planned
    requires IsAdvanced(c) ==> forall q :: 0 <= q < p ==> !IsElectiveSlot(start.requirements[q])
    ensures BindAll(start.requirements[..i], start).Ok? ==> (c, c) in BindAll(start.requirements[..i], start).value.reqs
  {
    var s := start.requirements;
    assert s[..i][..i - 1] == s[..i - 1];
    assert s[..i][i - 1] == s[i - 1];
    if i - 1 == p {
      NamedKept(start, c, p, p);
    } else {
      NamedBound(start, c, p, i - 1);
      match BindAll(s[..i - 1], start)
      case Err(_) =>
      case Ok(st) =>
        match Step(st, s[i - 1])
        case Err(_) =>
        case Ok(next) =>
          assert next.reqs[..|st.reqs|] == st.reqs;
    }
  }
}
