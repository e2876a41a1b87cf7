/**
 * get_class_list (msml.py:71-84): group a student's record into the courses
 * planned per term. The record is a sequence of (field, value) pairs in
 * column order; fields labelled `<d>S<yy> <slot>` are course slots, all
 * others are metadata and are skipped. The result is an insertion-ordered
 * dict from decoded term field to the values of its fields.
 */
module ClassList {
  import opened Wrappers
  import opened Text
  import opened Lists
  import opened Terms

  type Record<V> = seq<(string, V)>

  type Groups<V> = seq<(string, seq<V>)>

  /** The pattern `^(\dS\d{2}) `. */
  const TermFieldPattern: seq<CharClass> := [Digit, Exactly('S'), Digit, Digit, Exactly(' ')]

  predicate IsTermField(field: string)
  {
    MatchesPrefix(TermFieldPattern, field)
  }

  /** The term fields of a record as (decoded term field, value) in record order, or the first decoding error. */
  function Collect<V>(record: Record<V>): Result<seq<(string, V)>, TermError>
  {
    if record == [] then Ok([])
    else CollectNext(Collect(record[..|record| - 1]), record[|record| - 1])
  }

  /** Lines 78-80 for one field: skip metadata, decode a term field, or pass an earlier error on. */
  function CollectNext<V>(sofar: Result<seq<(string, V)>, TermError>, entry: (string, V)): Result<seq<(string, V)>, TermError>
  {
    match sofar
    case Err(e) => Err(e)
    case Ok(pairs) =>
      var (field, value) := entry;
      if !IsTermField(field) then Ok(pairs)
      else
        match SemesterCodeToString(field[..4])
        case Err(e) => Err(e)
        case Ok(term) => Ok(pairs + [(term, value)])
  }

  /** Lines 81-83: create the term's list on first sight, then append the value to it. */
  function AppendTo<V>(g: Groups<V>, term: string, value: V): (r: Groups<V>)
    requires Distinct(Keys(g))
    ensures Distinct(Keys(r))
    ensures term in Keys(g) ==> |r| == |g| && Keys(r) == Keys(g)
    ensures term !in Keys(g) ==> |r| == |g| + 1 && r[|g|] == (term, [value]) && Keys(r) == Keys(g) + [term]
  {
    if term in Keys(g) then
      AppendExisting(g, g, term, value);
      Put(g, term, Get(g, term) + [value])
    else
      var g' := Put(g, term, []);
      AppendFresh(g, term, value);
      Put(g', term, Get(g', term) + [value])
  }

  /** AppendTo leaves every other list alone and extends the term's list by the value. */
  lemma AppendToAt<V>(g: Groups<V>, term: string, value: V, i: nat)
    requires Distinct(Keys(g)) && i < |g|
    ensures AppendTo(g, term, value)[i] == (g[i].0, g[i].1 + if g[i].0 == term then [value] else [])
  {
    if term in Keys(g) {
      AppendExisting(g, g, term, value);
    } else {
      AppendFresh(g, term, value);
    }
  }

  lemma AppendFresh<V>(g: Groups<V>, term: string, value: V)
    requires Distinct(Keys(g)) && term !in Keys(g)
    ensures var g' := Put(g, term, []);
      && term in Keys(g') && Distinct(Keys(g'))
      && var r := Put(g', term, Get(g', term) + [value]);
      && Distinct(Keys(r)) && |r| == |g| + 1 && r[|g|] == (term, [value])
      && forall i :: 0 <= i < |g| ==> r[i] == (g[i].0, g[i].1 + if g[i].0 == term then [value] else [])
  {
    var g' := Put(g, term, []);
    assert g' == g + [(term, [])];
    assert Keys(g') == Keys(g) + [term];
    DistinctConcat(Keys(g), [term]);
    AppendExisting(g', g, term, value);
    var j :| 0 <= j < |g'| && g'[j] == (term, Get(g', term));
    assert Keys(g')[j] == term;
    assert j == |g|;
    assert Get(g', term) == [];
    PutExisting(g', term, [] + [value]);
    var r := Put(g', term, [] + [value]);
    assert g'[|g|] == (term, []);
    assert r[|g|] == (term, [] + [value]);
    assert [] + [value] == [value];
  }

  /** Appending to a list that is already in the dict: g' extends g by at most fresh keys. */
  lemma AppendExisting<V>(g': Groups<V>, g: Groups<V>, term: string, value: V)
    requires Distinct(Keys(g')) && term in Keys(g')
    requires |g| <= |g'| && g'[..|g|] == g
    ensures var r := Put(g', term, Get(g', term) + [value]);
      && Distinct(Keys(r)) && |r| == |g'|
      && forall i :: 0 <= i < |g| ==> r[i] == (g[i].0, g[i].1 + if g[i].0 == term then [value] else [])
  {
    var v := Get(g', term);
    var j :| 0 <= j < |g'| && g'[j] == (term, v);
    assert Keys(g')[j] == term;
    PutExisting(g', term, v + [value]);
    var r := Put(g', term, v + [value]);
    forall i | 0 <= i < |g|
      ensures r[i] == (g[i].0, g[i].1 + if g[i].0 == term then [value] else [])
    {
      assert g'[i] == g[i];
      if g[i].0 == term {
        assert Keys(g')[i] == Keys(g')[j];
        assert i == j && v == g[i].1;
      } else {
        assert r[i] == g[i] && g[i].1 + [] == g[i].1;
      }
    }
    assert Keys(r) == Keys(g');
  }

  /** The dict the loop builds from the collected pairs. */
  function GroupPairs<V>(pairs: seq<(string, V)>): (g: Groups<V>)
    ensures Distinct(Keys(g))
  {
    if pairs == [] then []
    else
      var (term, value) := pairs[|pairs| - 1];
      AppendTo(GroupPairs(pairs[..|pairs| - 1]), term, value)
  }

  /** What get_class_list returns, or the error it raises. */
  function Grouped<V>(record: Record<V>): Result<Groups<V>, TermError>
  {
    match Collect(record)
    case Err(e) => Err(e)
    case Ok(pairs) => Ok(GroupPairs(pairs))
  }

  /** Once a prefix of the record fails to decode, the whole record fails with that error. */
  lemma {:induction false} CollectStopsAtError<V>(record: Record<V>, n: nat)
    requires n <= |record| && Collect(record[..n]).Err?
    ensures Collect(record) == Collect(record[..n])
    decreases |record|
  {
    if n < |record| {
      var init := record[..|record| - 1];
      assert init[..n] == record[..n];
      CollectStopsAtError(init, n);
    } else {
      assert record[..n] == record;
    }
  }

  /** One more record entry extends what Collect has gathered. */
  lemma CollectStep<V>(record: Record<V>, i: nat)
    requires i < |record| && Collect(record[..i]).Ok?
    ensures var (field, value) := record[i];
      Collect(record[..i + 1]) ==
        if !IsTermField(field) then Collect(record[..i])
        else match SemesterCodeToString(field[..4])
          case Err(e) => Err(e)
          case Ok(term) => Ok(Collect(record[..i]).value + [(term, value)])
  {
    assert record[..i + 1][..i] == record[..i];
  }

  method GetClassList<V>(record: Record<V>) returns (r: Result<Groups<V>, TermError>)
    ensures r == Grouped(record)
  {
    var matched: Groups<V> := [];
    for i := 0 to |record|
      invariant Collect(record[..i]).Ok?
      invariant matched == GroupPairs(Collect(record[..i]).value)
    {
      var (field, value) := record[i];
      CollectStep(record, i);
      if IsTermField(field) {
        var term := SemesterCodeToString(field[..4]);
        if term.Err? {
          CollectStopsAtError(record, i + 1);
          return Err(term.error);
        }
        if term.value !in Keys(matched) {
          matched := Put(matched, term.value, []);
        }
        matched := Put(matched, term.value, Get(matched, term.value) + [value]);
      }
    }
    assert record[..|record|] == record;
    return Ok(matched);
  }

  /** s with repeats dropped, each element kept where it first occurs. */
  function FirstOccurrences(s: seq<string>): seq<string>
  {
    if s == [] then []
    else
      var d := FirstOccurrences(s[..|s| - 1]);
      if s[|s| - 1] in d then d else d + [s[|s| - 1]]
  }

  /** The values the pairs give one term, in pair order. */
  function ValuesFor<V>(pairs: seq<(string, V)>, term: string): seq<V>
  {
    if pairs == [] then []
    else ValuesFor(pairs[..|pairs| - 1], term) + if pairs[|pairs| - 1].0 == term then [pairs[|pairs| - 1].1] else []
  }

  /** Terms appear in the dict in the order of their first field. */
  lemma {:induction false} GroupPairsKeys<V>(pairs: seq<(string, V)>)
    ensures Keys(GroupPairs(pairs)) == FirstOccurrences(Keys(pairs))
  {
    if pairs != [] {
      var init, t, v := pairs[..|pairs| - 1], pairs[|pairs| - 1].0, pairs[|pairs| - 1].1;
      GroupPairsKeys(init);
      assert Keys(pairs) == Keys(init) + [t];
      assert Keys(pairs)[..|pairs| - 1] == Keys(init);
      var g := GroupPairs(init);
      var r := AppendTo(g, t, v);
      if t in Keys(g) {
        assert Keys(r) == Keys(g);
      } else {
        assert Keys(r) == Keys(g) + [t];
      }
    }
  }

  /** A term that is not a key of the dict received no values. */
  lemma {:induction false} ValuesForAbsent<V>(pairs: seq<(string, V)>, term: string)
    requires term !in Keys(GroupPairs(pairs))
    ensures ValuesFor(pairs, term) == []
  {
    if pairs != [] {
      var init, t, v := pairs[..|pairs| - 1], pairs[|pairs| - 1].0, pairs[|pairs| - 1].1;
      var g := GroupPairs(init);
      var r := AppendTo(g, t, v);
      assert t in Keys(r);
      assert term !in Keys(g);
      ValuesForAbsent(init, term);
    }
  }

  /** Each term's list holds exactly the values of that term's fields, in record order. */
  lemma {:induction false} GroupPairsValues<V>(pairs: seq<(string, V)>)
    ensures var g := GroupPairs(pairs);
      forall i :: 0 <= i < |g| ==> g[i].1 == ValuesFor(pairs, g[i].0)
  {
    if pairs != [] {
      var init, t, v := pairs[..|pairs| - 1], pairs[|pairs| - 1].0, pairs[|pairs| - 1].1;
      GroupPairsValues(init);
      if t !in Keys(GroupPairs(init)) {
        ValuesForAbsent(init, t);
      }
      assert pairs == init + [(t, v)];
      AppendToValues(GroupPairs(init), init, t, v);
    }
  }

  lemma AppendToValues<V>(g: Groups<V>, init: seq<(string, V)>, t: string, v: V)
    requires Distinct(Keys(g))
    requires forall i :: 0 <= i < |g| ==> g[i].1 == ValuesFor(init, g[i].0)
    requires t !in Keys(g) ==> ValuesFor(init, t) == []
    ensures var r := AppendTo(g, t, v);
      forall i :: 0 <= i < |r| ==> r[i].1 == ValuesFor(init + [(t, v)], r[i].0)
  {
    var pairs := init + [(t, v)];
    assert pairs[..|pairs| - 1] == init;
    var r := AppendTo(g, t, v);
    forall i | 0 <= i < |r|
      ensures r[i].1 == ValuesFor(pairs, r[i].0)
    {
      if i < |g| {
        AppendToAt(g, t, v, i);
      } else {
        assert r[i] == (t, [v]);
      }
    }
  }

  /** Every value collected lands in exactly one list: the dict's lists together hold the collected values. */
  lemma {:induction false} GroupPairsConserves<V>(pairs: seq<(string, V)>)
    ensures multiset(Flatten(GroupPairs(pairs))) == multiset(Values(pairs))
  {
    if pairs != [] {
      var init, t, v := pairs[..|pairs| - 1], pairs[|pairs| - 1].0, pairs[|pairs| - 1].1;
      var g := GroupPairs(init);
      assert multiset(Values(pairs)) == multiset(Values(init)) + multiset{v} by {
        assert pairs == init + [(t, v)];
        KeysValuesConcat(init, [(t, v)]);
      }
      assert multiset(Flatten(g)) == multiset(Values(init)) by {
        GroupPairsConserves(init);
      }
      assert multiset(Flatten(AppendTo(g, t, v))) == multiset(Flatten(g)) + multiset{v} by {
        AppendToConserves(g, t, v);
      }
      assert GroupPairs(pairs) == AppendTo(g, t, v);
    }
  }

  lemma AppendToConserves<V>(g: Groups<V>, t: string, v: V)
    requires Distinct(Keys(g))
    ensures multiset(Flatten(AppendTo(g, t, v))) == multiset(Flatten(g)) + multiset{v}
  {
    if t in Keys(g) {
      var j :| 0 <= j < |g| && Keys(g)[j] == t;
      AppendToExisting(g, t, v, j);
      var r := AppendTo(g, t, v);
      var a, b := Flatten(g[..j]), Flatten(g[j + 1..]);
      FlattenSplit(g, j);
      FlattenSplit(r, j);
      assert Flatten(r) == a + (g[j].1 + [v]) + b;
    } else {
      AppendToFresh(g, t, v);
      assert Flatten(g + [(t, [v])]) == Flatten(g) + [v];
    }
  }

  /** Appending under a new term adds one list at the end. */
  lemma AppendToFresh<V>(g: Groups<V>, t: string, v: V)
    requires Distinct(Keys(g)) && t !in Keys(g)
    ensures AppendTo(g, t, v) == g + [(t, [v])]
  {
    var r := AppendTo(g, t, v);
    forall i | 0 <= i < |g| ensures r[i] == g[i] {
      AppendToAt(g, t, v, i);
      assert Keys(g)[i] == g[i].0 != t;
      assert g[i].1 + [] == g[i].1;
    }
  }

  /** Appending to the list at index j changes that list only. */
  lemma AppendToExisting<V>(g: Groups<V>, t: string, v: V, j: nat)
    requires Distinct(Keys(g)) && j < |g| && g[j].0 == t
    ensures var r := AppendTo(g, t, v);
      |r| == |g| && r[..j] == g[..j] && r[j] == (t, g[j].1 + [v]) && r[j + 1..] == g[j + 1..]
  {
    var r := AppendTo(g, t, v);
    assert Keys(g)[j] == t;
    forall i | 0 <= i < |g| ensures r[i] == if i == j then (t, g[j].1 + [v]) else g[i] {
      AppendToAt(g, t, v, i);
      if i != j {
        assert Keys(g)[i] != Keys(g)[j] && Keys(g)[i] == g[i].0;
        assert g[i].1 + [] == g[i].1;
      }
    }
    assert r[..j] == g[..j];
    assert r[j + 1..] == g[j + 1..];
  }

  /** Fields whose label is not a term field are ignored wherever they sit in the record. */
  lemma {:induction false} CollectSkipsMetadata<V>(a: Record<V>, field: string, value: V, b: Record<V>)
    requires !IsTermField(field)
    ensures Collect(a + [(field, value)] + b) == Collect(a + b)
    decreases |b|
  {
    var x := a + [(field, value)];
    if b == [] {
      assert x + b == x && x[..|a|] == a && a + b == a;
    } else {
      var b', last := b[..|b| - 1], b[|b| - 1];
      CollectSkipsMetadata(a, field, value, b');
      var u, w := x + b', a + b';
      assert x + b == u + [last] && (u + [last])[..|u|] == u;
      assert a + b == w + [last] && (w + [last])[..|w|] == w;
    }
  }

  /** The only way grouping fails is a term field whose semester digit is 4 to 9. */
  lemma {:induction false} CollectErrorIsUnknownSemester<V>(record: Record<V>)
    requires Collect(record).Err?
    ensures Collect(record).error.UnknownSemester? && 4 <= Collect(record).error.sem <= 9
  {
    var init := record[..|record| - 1];
    if Collect(init).Err? {
      CollectErrorIsUnknownSemester(init);
    } else {
      var field := record[|record| - 1].0;
      assert IsTermField(field);
      assert InClass(field[0], TermFieldPattern[0]) && InClass(field[1], TermFieldPattern[1]);
      assert InClass(field[2], TermFieldPattern[2]) && InClass(field[3], TermFieldPattern[3]);
      assert IsSemesterCode(field[..4]);
    }
  }
}
