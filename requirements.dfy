/**
 * The degree requirement list of get_requirements (msml.py:100-107) and
 * make_electives_unique (msml.py:86-92), which numbers the placeholder
 * elective slots in place so that every requirement has its own name.
 */
module Requirements {
  import opened Text
  import opened Lists

  /** Placeholder for a 5000-level (or higher) CSC elective. */
  const Elective: string := "CSC5xxx"

  /** The six slots every plan starts from. */
  const CoreSlots: seq<string> := ["CSC5201", "CSC6621", "CSC6605", "PHL6001", "CSC7901", Elective]

  /** How many placeholder electives s holds. */
  function ElectivesIn(s: seq<string>): (n: nat)
    ensures n <= |s|
  {
    if s == [] then 0
    else ElectivesIn(s[..|s| - 1]) + (if s[|s| - 1] == Elective then 1 else 0)
  }

  /** The name of the n-th elective slot, "CSC5xxx n". */
  function ElectiveLabel(n: nat): string
  {
    Elective + " " + NatToString(n)
  }

  /** The list after make_electives_unique: the k-th placeholder (counting from 1) is renamed to ElectiveLabel(k). */
  function Numbered(s: seq<string>): seq<string>
  {
    seq(|s|, i requires 0 <= i < |s| => if s[i] == Elective then ElectiveLabel(ElectivesIn(s[..i]) + 1) else s[i])
  }

  /** Lines 88-92: one pass over the list, counting placeholders and renaming each one it meets. */
  method MakeElectivesUnique(li: array<string>)
    modifies li
    ensures li[..] == Numbered(old(li[..]))
  {
    ghost var orig := li[..];
    var j := 0;
    for i := 0 to li.Length
      invariant j == ElectivesIn(orig[..i])
      invariant li[..i] == Numbered(orig)[..i]
      invariant li[i..] == orig[i..]
    {
      assert orig[..i + 1][..i] == orig[..i];
      assert li[i] == orig[i] && li[i + 1..] == orig[i + 1..];
      if li[i] == Elective {
        j := j + 1;
        li[i] := li[i] + " " + NatToString(j);
      }
      assert li[..i + 1] == li[..i] + [li[i]];
    }
    assert li[..] == li[..li.Length];
  }

  /** The name of a numbered slot back to the placeholder it came from. */
  function Base(x: string): (b: string)
  {
    if StartsWith(x, Elective + " ") then Elective else x
  }

  lemma {:induction false} ElectivesInPrefix(s: seq<string>, i: nat, j: nat)
    requires i <= j <= |s|
    ensures ElectivesIn(s[..i]) <= ElectivesIn(s[..j])
    ensures i < j && s[i] == Elective ==> ElectivesIn(s[..i]) < ElectivesIn(s[..j])
    decreases j - i
  {
    if i < j {
      ElectivesInPrefix(s, i + 1, j);
      assert s[..i + 1][..i] == s[..i];
    }
  }

  lemma ElectiveLabelInjective(m: nat, n: nat)
    ensures ElectiveLabel(m) == ElectiveLabel(n) <==> m == n
  {
    var p := Elective + " ";
    assert ElectiveLabel(m)[|p|..] == NatToString(m);
    assert ElectiveLabel(n)[|p|..] == NatToString(n);
    NatToStringInjective(m, n);
  }

  /** Numbering gives distinct placeholders distinct names. */
  lemma NumberedElectivesDistinct(s: seq<string>, i: nat, j: nat)
    requires i < j < |s| && s[i] == Elective && s[j] == Elective
    ensures Numbered(s)[i] != Numbered(s)[j]
  {
    ElectivesInPrefix(s, i, j);
    ElectiveLabelInjective(ElectivesIn(s[..i]) + 1, ElectivesIn(s[..j]) + 1);
  }

  /** Numbering is undone by Base, as long as no other entry already looks numbered. */
  lemma NumberedBase(s: seq<string>)
    requires forall i :: 0 <= i < |s| ==> s[i] == Elective || !StartsWith(s[i], Elective + " ")
    ensures |Numbered(s)| == |s|
    ensures forall i :: 0 <= i < |s| ==> Base(Numbered(s)[i]) == s[i]
  {
    forall i | 0 <= i < |s|
      ensures Base(Numbered(s)[i]) == s[i]
    {
      if s[i] == Elective {
        var p := Elective + " ";
        assert Numbered(s)[i][..|p|] == p;
      }
    }
  }

  /** A numbered list is free of duplicates when the entries that are not placeholders are. */
  lemma NumberedDistinct(s: seq<string>)
    requires forall i, j :: 0 <= i < j < |s| && s[i] != Elective ==> s[i] != s[j]
    requires forall i :: 0 <= i < |s| ==> s[i] == Elective || !StartsWith(s[i], Elective + " ")
    ensures Distinct(Numbered(s))
  {
    var r := Numbered(s);
    NumberedBase(s);
    forall i, j | 0 <= i < j < |r|
      ensures r[i] != r[j]
    {
      if s[i] == Elective && s[j] == Elective {
        NumberedElectivesDistinct(s, i, j);
      } else if s[i] == Elective {
        assert Base(r[i]) != Base(r[j]);
      } else {
        assert Base(r[i]) != Base(r[j]);
      }
    }
  }

  /** Lines 100-106: the requirements before numbering, chosen by the two admission flags. */
  function Unnumbered(needCsc5610: bool, needMth5810: bool): seq<string>
  {
    (if needCsc5610 then ["CSC5610"] + CoreSlots else CoreSlots + [Elective])
    + [if needMth5810 then "MTH5810" else Elective]
  }

  /** The requirement list get_requirements reconciles against. */
  function Template(needCsc5610: bool, needMth5810: bool): seq<string>
  {
    Numbered(Unnumbered(needCsc5610, needMth5810))
  }

  /**
   * The template written out: the optional CSC5610 first, the five named
   * courses, then the numbered electives, and MTH5810 last when needed.
   */
  lemma TemplateShape(needCsc5610: bool, needMth5810: bool)
    ensures Template(needCsc5610, needMth5810)
      == (if needCsc5610 then ["CSC5610"] else [])
       + ["CSC5201", "CSC6621", "CSC6605", "PHL6001", "CSC7901", ElectiveLabel(1)]
       + (if needCsc5610 then [] else [ElectiveLabel(2)])
       + [if needMth5810 then "MTH5810" else ElectiveLabel(if needCsc5610 then 2 else 3)]
  {
    var u := Unnumbered(needCsc5610, needMth5810);
    var n := if needCsc5610 then 6 else 5;
    NoElectives(u[..n]);
    assert u[..n + 1][..n] == u[..n];
    if !needCsc5610 {
      assert u[..7][..6] == u[..6];
    }
  }

  lemma {:induction false} NoElectives(s: seq<string>)
    requires Elective !in s
    ensures ElectivesIn(s) == 0
  {
    if s != [] {
      NoElectives(s[..|s| - 1]);
    }
  }

  /** Eight distinct slots, with the two flags deciding the first and last. */
  lemma TemplateFacts(needCsc5610: bool, needMth5810: bool)
    ensures var t := Template(needCsc5610, needMth5810);
      && |t| == 8
      && Distinct(t)
      && "CSC5201" in t
      && (t[0] == "CSC5610" <==> needCsc5610)
      && (t[7] == "MTH5810" <==> needMth5810)
  {
    TemplateShape(needCsc5610, needMth5810);
    TemplateDistinct(needCsc5610, needMth5810);
  }

  lemma TemplateDistinct(needCsc5610: bool, needMth5810: bool)
    ensures Distinct(Template(needCsc5610, needMth5810))
  {
    var u := Unnumbered(needCsc5610, needMth5810);
    forall i | 0 <= i < |u|
      ensures u[i] == Elective || !StartsWith(u[i], Elective + " ")
    {
    }
    NumberedDistinct(u);
  }
}
