/**
 * Term codes and course codes (msml.py:54-69). A term code `<d>S<yy>` names a
 * semester digit and a two-digit academic year; its display label names a
 * season and a calendar year.
 */
module Terms {
  import opened Wrappers
  import opened Text

  /** TERMS: semester digit to season name. */
  const TERMS: map<int, string> := map[1 := "Fall", 2 := "Spring", 3 := "Summer"]

  /** Why decoding a term code raises in Python. */
  datatype TermError =
    | NoSemesterCode(code: string)  // re.match gives None, and `.group` raises AttributeError
    | UnknownSemester(sem: int)     // TERMS[sem] raises KeyError

  /** The pattern `(\d)S(\d{2})`. */
  const SemesterCodePattern: seq<CharClass> := [Digit, Exactly('S'), Digit, Digit]

  /** The shape `\dS\d\d` at the start of code. */
  predicate IsSemesterCode(code: string)
  {
    |code| >= 4 && IsDigit(code[0]) && code[1] == 'S' && IsDigit(code[2]) && IsDigit(code[3])
  }

  /** The two-digit academic year of a term code. */
  function AcademicYear(code: string): nat
    requires IsSemesterCode(code)
  {
    10 * DigitValue(code[2]) + DigitValue(code[3])
  }

  /** The season a valid semester digit stands for: 0 is the second summer term. */
  function Season(d: char): string
  {
    if d == '1' then "Fall" else if d == '2' then "Spring" else "Summer"
  }

  /** Fall (1) and the second summer term (0) fall in the calendar year before the academic year. */
  function CalendarYear(code: string): int
    requires IsSemesterCode(code)
  {
    if code[0] <= '1' then AcademicYear(code) - 1 else AcademicYear(code)
  }

  /** semester_code_to_string: `1S24` becomes "Fall, '23". */
  function SemesterCodeToString(code: string): (r: Result<string, TermError>)
    ensures !IsSemesterCode(code) <==> r == Err(NoSemesterCode(code))
    ensures r.Ok? <==> IsSemesterCode(code) && code[0] <= '3'
    ensures r.Ok? ==> r.value == Season(code[0]) + ", '" + IntToString(CalendarYear(code))
    ensures IsSemesterCode(code) && code[0] > '3' ==> r == Err(UnknownSemester(DigitValue(code[0])))
  {
    if !MatchesPrefix(SemesterCodePattern, code) then Err(NoSemesterCode(code))
    else
      assert InClass(code[0], SemesterCodePattern[0]) && InClass(code[1], SemesterCodePattern[1]);
      assert InClass(code[2], SemesterCodePattern[2]) && InClass(code[3], SemesterCodePattern[3]);
      var sem, yr := DigitValue(code[0]), AcademicYear(code);
      var (sem, yr) :=
        if sem == 0 then (sem + |TERMS|, yr - 1)
        else if sem == 1 then (sem, yr - 1)  // academic year to calendar year
        else (sem, yr);
      if sem in TERMS then Ok(TERMS[sem] + ", '" + IntToString(yr))
      else Err(UnknownSemester(sem))
  }

  /**
   * Two term codes share a label exactly when they name the same season of the
   * same calendar year; so `0S24` and `3S23` collide, and nothing else does.
   */
  lemma SameLabelIff(c1: string, c2: string)
    requires SemesterCodeToString(c1).Ok? && SemesterCodeToString(c2).Ok?
    ensures SemesterCodeToString(c1) == SemesterCodeToString(c2)
        <==> Season(c1[0]) == Season(c2[0]) && CalendarYear(c1) == CalendarYear(c2)
  {
    var l1, l2 := SemesterCodeToString(c1).value, SemesterCodeToString(c2).value;
    var s1, s2 := Season(c1[0]), Season(c2[0]);
    var y1, y2 := IntToString(CalendarYear(c1)), IntToString(CalendarYear(c2));
    if l1 == l2 {
      // the second letter tells the three season names apart
      assert l1[1] == s1[1] && l2[1] == s2[1];
      assert s1 == s2;
      assert y1 == l1[|s1| + 3..] && y2 == l2[|s2| + 3..];
      IntToStringInjective(CalendarYear(c1), CalendarYear(c2));
    }
  }

  lemma Decodes(code: string, season: string, year: int)
    requires IsSemesterCode(code) && code[0] <= '3'
    requires Season(code[0]) == season && CalendarYear(code) == year
    ensures SemesterCodeToString(code) == Ok(season + ", '" + IntToString(year))
  {
  }

  /** The docstring's example, and the two codes that name the same summer. */
  lemma DecodingExamples()
    ensures SemesterCodeToString("1S24") == Ok("Fall, '23")
    ensures SemesterCodeToString("0S24") == Ok("Summer, '23")
    ensures SemesterCodeToString("3S23") == Ok("Summer, '23")
  {
    assert NatToString(23) == "23" && NatToString(24) == "24";
    assert IntToString(23) == "23";
    Decodes("1S24", "Fall", 23);
    assert "Fall" + ", '" + "23" == "Fall, '23";
    Decodes("0S24", "Summer", 23);
    assert "Summer" + ", '" + "23" == "Summer, '23";
    Decodes("3S23", "Summer", 23);
    assert "Summer" + ", '" + IntToString(23) == "Summer, '23";
  }

  /** Spring keeps the code's year; the two-digit year is printed without zero padding. */
  lemma YearExamples()
    ensures SemesterCodeToString("2S24") == Ok("Spring, '24")
    ensures SemesterCodeToString("1S05") == Ok("Fall, '4")
  {
    assert NatToString(24) == "24" && NatToString(5) == "5";
    assert IntToString(24) == "24" && IntToString(4) == "4";
    Decodes("2S24", "Spring", 24);
    assert "Spring" + ", '" + IntToString(24) == "Spring, '24";
    Decodes("1S05", "Fall", 4);
    assert "Fall" + ", '" + IntToString(4) == "Fall, '4";
  }

  /**
   * The boundary cases: year 00 of a fall (1) or second-summer (0) term goes
   * negative, a summer (3) term keeps year 0, and digits 4-9 have no season.
   */
  lemma BoundaryExamples()
    ensures SemesterCodeToString("1S00") == Ok("Fall, '-1")
    ensures SemesterCodeToString("3S00") == Ok("Summer, '0")
    ensures SemesterCodeToString("4S24") == Err(UnknownSemester(4))
  {
    assert NatToString(1) == "1" && NatToString(0) == "0" && NatToString(24) == "24";
    assert IntToString(-1) == "-1" && IntToString(0) == "0";
    Decodes("1S00", "Fall", -1);
    assert "Fall" + ", '" + IntToString(-1) == "Fall, '-1";
    Decodes("3S00", "Summer", 0);
    assert "Summer" + ", '" + IntToString(0) == "Summer, '0";
    assert IsSemesterCode("4S24");
  }

  /** The pattern `^[A-Za-z]{3}\d{4}$`. */
  const CourseCodePattern: seq<CharClass> := [Letter, Letter, Letter, Digit, Digit, Digit, Digit]

  /** is_course_code: three letters then four digits, and nothing else. */
  function IsCourseCode(s: string): (b: bool)
    ensures b <==> |s| == 7 && (forall i :: 0 <= i < 3 ==> IsLetter(s[i]))
                            && (forall i :: 3 <= i < 7 ==> IsDigit(s[i]))
  {
    assert forall i :: 0 <= i < 3 ==> CourseCodePattern[i] == Letter;
    assert forall i :: 3 <= i < 7 ==> CourseCodePattern[i] == Digit;
    MatchesWhole(CourseCodePattern, s)
  }
}
