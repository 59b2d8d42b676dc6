/**
 * The home page: the search parameters become the `andConditions` of the user query (an
 * image, a city substring, a gender, an age range turned into birth-date bounds), the viewer
 * is excluded, at most 50 users are shown, and for a signed-in viewer the like state of each
 * shown user is looked up.
 */
module HomePage {
  import opened Wrappers
  import opened Dates
  import opened Store
  import Strings
  import Seqs
  import UsersPage
  import LikeActions

  datatype SearchParams = SearchParams(
    city: Option<string>,
    minAge: Option<string>,
    maxAge: Option<string>,
    gender: Option<string>)

  /** A search parameter that is present and not ''. */
  predicate Truthy(param: Option<string>) {
    param.Some? && param.value != ""
  }

  /* ---------- parseInt ---------- */

  /** The white space `parseInt` skips before the number. */
  predicate IsSpace(c: char) {
    c == ' ' || c == '\t' || c == '\n' || c == '\r' || c == '\U{B}' || c == '\U{C}' || c == '\U{A0}' || c == '\U{FEFF}'
  }

  function TrimStart(s: string): (t: string)
    ensures Strings.IsSuffixOf(t, s)
    ensures forall i :: 0 <= i < |s| - |t| ==> IsSpace(s[i])
    ensures t == [] || !IsSpace(t[0])
  {
    if s != [] && IsSpace(s[0]) then
      var t := TrimStart(s[1..]);
      assert s[|s| - |t|..] == s[1..][|s| - 1 - |t|..];
      t
    else s
  }

  /** The number of digits `s` starts with. */
  function LeadingDigits(s: string): (k: nat)
    ensures k <= |s| && Strings.AllDigits(s[..k])
    ensures k < |s| ==> !Strings.IsDigit(s[k])
  {
    if s == [] || !Strings.IsDigit(s[0]) then 0
    else
      var k := 1 + LeadingDigits(s[1..]);
      assert s[..k] == [s[0]] + s[1..][..k - 1];
      k
  }

  /** The text after an optional sign. */
  function Unsigned(t: string): string {
    if |t| > 0 && (t[0] == '-' || t[0] == '+') then t[1..] else t
  }

  /**
   * `parseInt(s, 10)`: leading white space, an optional sign, then as many decimal digits as
   * follow; `None` (NaN) when there is no digit there.
   */
  function ParseIntPrefix(s: string): (r: Option<int>)
    ensures r.Some? <==> var body := Unsigned(TrimStart(s)); |body| > 0 && Strings.IsDigit(body[0])
  {
    var t := TrimStart(s);
    var body := Unsigned(t);
    var k := LeadingDigits(body);
    if k == 0 then None
    else
      var n: int := Strings.DigitsValue(body[..k]);
      Some(if t[0] == '-' then -n else n)
  }

  lemma {:induction false} LeadingDigitsOfNumeral(d: string, rest: string)
    requires Strings.AllDigits(d)
    requires rest == [] || !Strings.IsDigit(rest[0])
    ensures LeadingDigits(d + rest) == |d|
  {
    if d != [] {
      assert (d + rest)[1..] == d[1..] + rest;
      LeadingDigitsOfNumeral(d[1..], rest);
    } else {
      assert d + rest == rest;
    }
  }

  /** Text that does not start with white space is left as it is. */
  lemma TrimStartNoSpace(s: string)
    requires s != [] && !IsSpace(s[0])
    ensures TrimStart(s) == s
  {
  }

  /** A numeral starts with no white space; after its sign come its digits. */
  lemma NumeralSign(n: int, rest: string)
    ensures var s := Strings.IntToString(n) + rest;
      && TrimStart(s) == s
      && (s[0] == '-' <==> n < 0)
      && Unsigned(s) == Strings.NatToString(if n < 0 then -n else n) + rest
  {
    var s := Strings.IntToString(n) + rest;
    var digits := Strings.NatToString(if n < 0 then -n else n);
    assert s[0] == Strings.IntToString(n)[0];
    if n < 0 {
      assert s == "-" + (digits + rest);
    } else {
      assert Strings.IsDigit(digits[0]);
      assert s == digits + rest;
    }
    TrimStartNoSpace(s);
  }

  /** `parseInt` reads back a numeral, whatever non-digit text follows it. */
  lemma ParseIntPrefixReadsNumeral(n: int, rest: string)
    requires rest == [] || !Strings.IsDigit(rest[0])
    ensures ParseIntPrefix(Strings.IntToString(n) + rest) == Some(n)
  {
    var m: nat := if n < 0 then -n else n;
    var digits := Strings.NatToString(m);
    NumeralSign(n, rest);
    LeadingDigitsOfNumeral(digits, rest);
    assert (digits + rest)[..|digits|] == digits;
    Strings.NatToStringRoundTrip(m);
  }

  /**
   * `minAge` / `maxAge` as the page uses them: parsed when the parameter is non-empty, and
   * then only when the number is truthy, so NaN and 0 mean "no bound".
   */
  function AgeFilter(param: Option<string>): (age: Option<int>)
    ensures age.Some? <==> Truthy(param) && ParseIntPrefix(param.value).Some? && ParseIntPrefix(param.value) != Some(0)
    ensures age.Some? ==> age == ParseIntPrefix(param.value) && age.value != 0
  {
    if !Truthy(param) then None
    else
      var parsed := ParseIntPrefix(param.value);
      if parsed.Some? && parsed.value != 0 then parsed else None
  }

  /* ---------- birth-date bounds ---------- */

  /** `setFullYear` from 29 February into a common year: the one case where the day does not survive. */
  predicate RollsOver(today: Date, years: int) {
    today.month == 2 && today.day == 29 && !IsLeapYear(today.year - years)
  }

  /**
   * `getDateFromAge` as written: `setFullYear` moves `now` back `years` years keeping the
   * month, the day of the month and the time. The day is counted from the first of that month
   * in the new year, so a 29 February that lands in a common year becomes 1 March.
   */
  function GetDateFromAge(years: int, now: Instant): (cutoff: Instant)
    ensures cutoff.msOfDay == now.msOfDay && cutoff.date.year == now.date.year - years
    ensures ValidDate(now.date) ==>
      && cutoff.date == AddDays(Date(now.date.year - years, now.date.month, 1), now.date.day - 1)
      && ValidDate(cutoff.date)
  {
    var y := now.date.year - years;
    var d := now.date;
    var date := if RollsOver(d, years) then Date(y, 3, 1) else Date(y, d.month, d.day);
    DayCountedFromFirst(d, years);
    Instant(date, now.msOfDay)
  }

  /** Day `k` of the month `years` years back, counted from the first, rolling past a short February. */
  lemma DayCountedFromFirst(d: Date, years: int)
    ensures ValidDate(d) ==>
      AddDays(Date(d.year - years, d.month, 1), d.day - 1)
        == if RollsOver(d, years) then Date(d.year - years, 3, 1) else Date(d.year - years, d.month, d.day)
  {
    var y := d.year - years;
    if ValidDate(d) {
      if RollsOver(d, years) {
        AddDaysWithinMonth(y, 2, 27);
        assert AddDays(Date(y, 2, 1), 28) == NextDay(Date(y, 2, 28));
      } else {
        AddDaysWithinMonth(y, d.month, d.day - 1);
      }
    }
  }

  /**
   * The cutoff the age filter needs: `years` years before `now`, with a 29 February that lands
   * in a common year clamped to 28 February.
   */
  function AgeCutoff(years: int, now: Instant): (cutoff: Instant)
    requires ValidDate(now.date)
    ensures cutoff.msOfDay == now.msOfDay && cutoff.date.year == now.date.year - years
    ensures ValidDate(cutoff.date)
  {
    var y := now.date.year - years;
    var d := now.date;
    var dim := DaysInMonth(y, d.month);
    Instant(Date(y, d.month, if d.day > dim then dim else d.day), now.msOfDay)
  }

  /** The cutoff as written is the corrected one, except on the roll, where it is the day after. */
  lemma GetDateFromAgeVersusCutoff(years: int, now: Instant)
    requires ValidDate(now.date)
    ensures GetDateFromAge(years, now) ==
      if RollsOver(now.date, years) then Instant(NextDay(AgeCutoff(years, now).date), now.msOfDay)
      else AgeCutoff(years, now)
  {
  }

  /** Today's (month, day) `years` years back, which may be a 29 February of a common year. */
  function YearsBack(today: Date, years: int): Date {
    Date(today.year - years, today.month, today.day)
  }

  /** For a real birth date, the clamped cutoff orders it exactly as the unclamped triple would. */
  lemma CutoffOrdersLikeTriple(birth: Date, now: Instant, years: int)
    requires ValidDate(birth) && ValidDate(now.date)
    ensures var c := AgeCutoff(years, now).date;
      && (AtOrBefore(birth, c) <==> AtOrBefore(birth, YearsBack(now.date, years)))
      && (Before(c, birth) <==> Before(YearsBack(now.date, years), birth))
  {
    var y := now.date.year - years;
    if now.date.day > DaysInMonth(y, now.date.month) {
      assert now.date.month == 2 && now.date.day == 29 && !IsLeapYear(y);
      if birth.year == y && birth.month == 2 {
        assert birth.day <= 28;
      }
    }
  }

  /**
   * The cutoff as written orders a real birth date like today's (month, day) `years` years
   * back, except a birth on 1 March of a common target year when today is 29 February: that
   * one lies on the cutoff instead of after it.
   */
  lemma GetDateFromAgeOrdersLikeTriple(birth: Date, now: Instant, years: int)
    requires ValidDate(birth) && ValidDate(now.date)
    ensures var c := GetDateFromAge(years, now).date;
      var rolled := RollsOver(now.date, years) && birth == Date(now.date.year - years, 3, 1);
      && (AtOrBefore(birth, c) <==> AtOrBefore(birth, YearsBack(now.date, years)) || rolled)
      && (Before(c, birth) <==> Before(YearsBack(now.date, years), birth) && !rolled)
  {
    var y := now.date.year - years;
    if RollsOver(now.date, years) && birth.year == y && birth.month == 2 {
      assert birth.day <= 28;
    }
  }

  /** A birth date, stored at midnight, lies on or before the instant `t` of a later part of a day. */
  lemma MidnightOrder(birth: Date, t: Instant)
    requires t.msOfDay > 0
    ensures InstantAtOrBefore(StartOfDay(birth), t) <==> AtOrBefore(birth, t.date)
    ensures InstantAtOrBefore(t, StartOfDay(birth)) <==> Before(t.date, birth)
  {
  }

  /** The condition objects pushed onto `andConditions`. */
  datatype Condition =
    | ImageNotNull
    | ImageNotEmpty
    | CityContains(city: string)
    | GenderIs(gender: string)
    | BornBetween(latest: Instant, earliest: Instant)
    | BornAtMost(latest: Instant)
    | BornAtLeast(earliest: Instant)

  /** How the database evaluates one condition on a row; a null column satisfies no comparison. */
  predicate Satisfies(u: User, c: Condition) {
    match c
    case ImageNotNull => u.image.Some?
    case ImageNotEmpty => u.image.Some? && u.image.value != ""
    case CityContains(city) => u.city.Some? && Strings.Contains(u.city.value, city)
    case GenderIs(gender) => u.gender == Some(gender)
    case BornBetween(latest, earliest) =>
      u.birthDate.Some? && InstantAtOrBefore(StartOfDay(u.birthDate.value), latest)
      && InstantAtOrBefore(earliest, StartOfDay(u.birthDate.value))
    case BornAtMost(latest) => u.birthDate.Some? && InstantAtOrBefore(StartOfDay(u.birthDate.value), latest)
    case BornAtLeast(earliest) => u.birthDate.Some? && InstantAtOrBefore(earliest, StartOfDay(u.birthDate.value))
  }

  predicate SatisfiesAll(u: User, conditions: seq<Condition>) {
    forall i :: 0 <= i < |conditions| ==> Satisfies(u, conditions[i])
  }

  /**
   * The age bounds of the filter as the page computes them, with `getDateFromAge`: a minimum
   * alone, a maximum alone, or both when the minimum does not exceed the maximum; a maximum
   * below the minimum is ignored.
   */
  predicate AgeBoundsHold(birth: Option<Date>, minAge: Option<int>, maxAge: Option<int>, now: Instant) {
    && (minAge.Some? ==>
          birth.Some? && InstantAtOrBefore(StartOfDay(birth.value), GetDateFromAge(minAge.value, now)))
    && (maxAge.Some? && (minAge.None? || minAge.value <= maxAge.value) ==>
          birth.Some? && InstantAtOrBefore(GetDateFromAge(maxAge.value + 1, now), StartOfDay(birth.value)))
  }

  /** The same bounds built from the corrected cutoff. */
  predicate IntendedAgeBoundsHold(birth: Option<Date>, minAge: Option<int>, maxAge: Option<int>, now: Instant)
    requires ValidDate(now.date)
  {
    && (minAge.Some? ==>
          birth.Some? && InstantAtOrBefore(StartOfDay(birth.value), AgeCutoff(minAge.value, now)))
    && (maxAge.Some? && (minAge.None? || minAge.value <= maxAge.value) ==>
          birth.Some? && InstantAtOrBefore(AgeCutoff(maxAge.value + 1, now), StartOfDay(birth.value)))
  }

  /** Away from the 29 February roll, the page's bounds are the corrected ones. */
  lemma AgeBoundsAgreeOffLeapDay(birth: Option<Date>, minAge: Option<int>, maxAge: Option<int>, now: Instant)
    requires ValidDate(now.date)
    requires minAge.Some? ==> !RollsOver(now.date, minAge.value)
    requires maxAge.Some? ==> !RollsOver(now.date, maxAge.value + 1)
    ensures AgeBoundsHold(birth, minAge, maxAge, now) <==> IntendedAgeBoundsHold(birth, minAge, maxAge, now)
  {
    if minAge.Some? {
      GetDateFromAgeVersusCutoff(minAge.value, now);
    }
    if maxAge.Some? {
      GetDateFromAgeVersusCutoff(maxAge.value + 1, now);
    }
  }

  predicate HasImage(u: User) {
    u.image.Some? && u.image.value != ""
  }

  predicate CityMatches(u: User, params: SearchParams) {
    Truthy(params.city) ==> u.city.Some? && Strings.Contains(u.city.value, params.city.value)
  }

  predicate GenderMatches(u: User, params: SearchParams) {
    Truthy(params.gender) ==> u.gender == params.gender
  }

  /** What the filters ask of a listed user: an image, the city, the gender and the age bounds. */
  predicate MatchesFilters(u: User, params: SearchParams, now: Instant) {
    && HasImage(u)
    && CityMatches(u, params)
    && GenderMatches(u, params)
    && AgeBoundsHold(u.birthDate, AgeFilter(params.minAge), AgeFilter(params.maxAge), now)
  }

  lemma SatisfiesAllPush(u: User, conditions: seq<Condition>, c: Condition)
    ensures SatisfiesAll(u, conditions + [c]) <==> SatisfiesAll(u, conditions) && Satisfies(u, c)
  {
    if SatisfiesAll(u, conditions) && Satisfies(u, c) {
      forall i | 0 <= i < |conditions + [c]|
        ensures Satisfies(u, (conditions + [c])[i])
      {
        if i < |conditions| {
          assert (conditions + [c])[i] == conditions[i];
        }
      }
    }
    if SatisfiesAll(u, conditions + [c]) {
      assert Satisfies(u, (conditions + [c])[|conditions|]);
      forall i | 0 <= i < |conditions|
        ensures Satisfies(u, conditions[i])
      {
        assert (conditions + [c])[i] == conditions[i];
      }
    }
  }

  /**
   * The first part of the `andConditions` construction: the two image conditions always, then
   * the city and the gender when given.
   */
  method ProfileConditions(params: SearchParams) returns (andConditions: seq<Condition>)
    ensures |andConditions| >= 2 && andConditions[0] == ImageNotNull && andConditions[1] == ImageNotEmpty
    ensures forall u :: SatisfiesAll(u, andConditions) <==> HasImage(u) && CityMatches(u, params) && GenderMatches(u, params)
  {
    andConditions := [ImageNotNull, ImageNotEmpty];
    forall u
      ensures SatisfiesAll(u, andConditions) <==> HasImage(u)
    {
      assert Satisfies(u, andConditions[1]) ==> HasImage(u);
    }

    if Truthy(params.city) {
      var c := CityContains(params.city.value);
      assert forall u :: SatisfiesAll(u, andConditions + [c]) <==> HasImage(u) && CityMatches(u, params) by {
        Push(andConditions, c);
      }
      andConditions := andConditions + [c];
    }
    assert forall u :: SatisfiesAll(u, andConditions) <==> HasImage(u) && CityMatches(u, params);

    if Truthy(params.gender) {
      var c := GenderIs(params.gender.value);
      assert forall u :: SatisfiesAll(u, andConditions + [c]) <==>
        HasImage(u) && CityMatches(u, params) && GenderMatches(u, params) by {
        Push(andConditions, c);
      }
      andConditions := andConditions + [c];
    }
  }

  /**
   * The `andConditions` construction: the profile conditions, then at most one birth-date
   * condition built with `getDateFromAge`. A row passes them all exactly when it matches the
   * filters.
   */
  method BuildAndConditions(params: SearchParams, now: Instant) returns (andConditions: seq<Condition>)
    ensures |andConditions| >= 2 && andConditions[0] == ImageNotNull && andConditions[1] == ImageNotEmpty
    ensures forall u :: SatisfiesAll(u, andConditions) <==> MatchesFilters(u, params, now)
  {
    andConditions := ProfileConditions(params);
    var minAge := AgeFilter(params.minAge);
    var maxAge := AgeFilter(params.maxAge);
    if minAge.Some? && maxAge.Some? && minAge.value <= maxAge.value {
      var c := BornBetween(GetDateFromAge(minAge.value, now), GetDateFromAge(maxAge.value + 1, now));
      forall u
        ensures SatisfiesAll(u, andConditions + [c]) <==> MatchesFilters(u, params, now)
      {
        SatisfiesAllPush(u, andConditions, c);
        AgeConditionBetween(u, minAge.value, maxAge.value, now);
      }
      andConditions := andConditions + [c];
    } else if minAge.Some? {
      var c := BornAtMost(GetDateFromAge(minAge.value, now));
      forall u
        ensures SatisfiesAll(u, andConditions + [c]) <==> MatchesFilters(u, params, now)
      {
        SatisfiesAllPush(u, andConditions, c);
        AgeConditionAtMost(u, minAge.value, maxAge, now);
      }
      andConditions := andConditions + [c];
    } else if maxAge.Some? {
      var c := BornAtLeast(GetDateFromAge(maxAge.value + 1, now));
      forall u
        ensures SatisfiesAll(u, andConditions + [c]) <==> MatchesFilters(u, params, now)
      {
        SatisfiesAllPush(u, andConditions, c);
        AgeConditionAtLeast(u, maxAge.value, now);
      }
      andConditions := andConditions + [c];
    }
  }

  /** The birth-date condition pushed when both bounds apply. */
  lemma AgeConditionBetween(u: User, minAge: int, maxAge: int, now: Instant)
    requires minAge <= maxAge
    ensures Satisfies(u, BornBetween(GetDateFromAge(minAge, now), GetDateFromAge(maxAge + 1, now)))
        <==> AgeBoundsHold(u.birthDate, Some(minAge), Some(maxAge), now)
  {
  }

  /** The birth-date condition pushed for a minimum age alone. */
  lemma AgeConditionAtMost(u: User, minAge: int, maxAge: Option<int>, now: Instant)
    requires maxAge.None? || maxAge.value < minAge
    ensures Satisfies(u, BornAtMost(GetDateFromAge(minAge, now)))
        <==> AgeBoundsHold(u.birthDate, Some(minAge), maxAge, now)
  {
  }

  /** The birth-date condition pushed for a maximum age alone. */
  lemma AgeConditionAtLeast(u: User, maxAge: int, now: Instant)
    ensures Satisfies(u, BornAtLeast(GetDateFromAge(maxAge + 1, now)))
        <==> AgeBoundsHold(u.birthDate, None, Some(maxAge), now)
  {
  }

  /** `SatisfiesAllPush` for every row at once. */
  lemma Push(conditions: seq<Condition>, c: Condition)
    ensures forall u :: SatisfiesAll(u, conditions + [c]) <==> SatisfiesAll(u, conditions) && Satisfies(u, c)
  {
    forall u
      ensures SatisfiesAll(u, conditions + [c]) <==> SatisfiesAll(u, conditions) && Satisfies(u, c)
    {
      SatisfiesAllPush(u, conditions, c);
    }
  }

  /** The age a bounded search asks for: at least the minimum, and at most the maximum when it applies. */
  predicate AgeWithin(age: int, minAge: Option<int>, maxAge: Option<int>) {
    && (minAge.Some? ==> age >= minAge.value)
    && (maxAge.Some? && (minAge.None? || minAge.value <= maxAge.value) ==> age <= maxAge.value)
  }

  /**
   * The corrected bounds select by age: for a real birth date and a viewer's clock past
   * midnight, a row passes exactly when its `calculateAge` lies within the bounds that apply.
   */
  lemma AgeBoundsMeanAge(birth: Date, minAge: Option<int>, maxAge: Option<int>, now: Instant)
    requires ValidDate(birth) && ValidInstant(now) && now.msOfDay > 0
    ensures IntendedAgeBoundsHold(Some(birth), minAge, maxAge, now)
        <==> AgeWithin(UsersPage.CalculateAge(Some(birth), now.date).value, minAge, maxAge)
  {
    if minAge.Some? {
      CutoffOrdersLikeTriple(birth, now, minAge.value);
      MidnightOrder(birth, AgeCutoff(minAge.value, now));
      UsersPage.AtLeastAge(birth, now.date, minAge.value);
    }
    if maxAge.Some? {
      CutoffOrdersLikeTriple(birth, now, maxAge.value + 1);
      MidnightOrder(birth, AgeCutoff(maxAge.value + 1, now));
      UsersPage.AtLeastAge(birth, now.date, maxAge.value + 1);
    }
  }

  /** The page's own bounds select by age whenever `getDateFromAge` does not roll over. */
  lemma PageAgeBoundsMeanAge(birth: Date, minAge: Option<int>, maxAge: Option<int>, now: Instant)
    requires ValidDate(birth) && ValidInstant(now) && now.msOfDay > 0
    requires minAge.Some? ==> !RollsOver(now.date, minAge.value)
    requires maxAge.Some? ==> !RollsOver(now.date, maxAge.value + 1)
    ensures AgeBoundsHold(Some(birth), minAge, maxAge, now)
        <==> AgeWithin(UsersPage.CalculateAge(Some(birth), now.date).value, minAge, maxAge)
  {
    AgeBoundsAgreeOffLeapDay(Some(birth), minAge, maxAge, now);
    AgeBoundsMeanAge(birth, minAge, maxAge, now);
  }

  /**
   * With the cutoff as written, on 29 February 2024 a minimum age of 18 admits someone born on
   * 1 March 2006, who is 17 until the next day.
   */
  lemma LeapDayCutoffAdmitsTooYoung()
    ensures var now := Instant(Date(2024, 2, 29), 43200000);
      var birth := Date(2006, 3, 1);
      && AgeBoundsHold(Some(birth), Some(18), None, now)
      && UsersPage.CalculateAge(Some(birth), now.date) == Some(17)
      && !IntendedAgeBoundsHold(Some(birth), Some(18), None, now)
  {
  }

  /**
   * The same roll on the maximum side: on 29 February 2024 a maximum age of 30 drops someone
   * born on 1 March 1993, who is 30.
   */
  lemma LeapDayCutoffDropsMaxAge()
    ensures var now := Instant(Date(2024, 2, 29), 43200000);
      var birth := Date(1993, 3, 1);
      && !AgeBoundsHold(Some(birth), None, Some(30), now)
      && UsersPage.CalculateAge(Some(birth), now.date) == Some(30)
      && IntendedAgeBoundsHold(Some(birth), None, Some(30), now)
  {
  }

  /* ---------- the listing ---------- */

  /** `NOT: { id: currentUserId || undefined }`. */
  predicate NotViewer(u: User, session: Option<UserId>) {
    session.None? || session.value == "" || u.id != session.value
  }

  const HomeLimit := 50

  /** The row filter of the query: not the viewer, and matching the search parameters. */
  function Shown(session: Option<UserId>, params: SearchParams, now: Instant): User -> bool {
    u => NotViewer(u, session) && MatchesFilters(u, params, now)
  }

  /**
   * The users shown: the first 50 of `byIdDesc` (the user table in descending id order, as
   * the database sorts it) that are not the viewer and match the filters.
   */
  function HomeUsers(byIdDesc: seq<User>, session: Option<UserId>, params: SearchParams, now: Instant): (shown: seq<User>)
    ensures |shown| <= HomeLimit
    ensures forall u :: u in shown ==>
      u in byIdDesc && NotViewer(u, session) && HasImage(u) && MatchesFilters(u, params, now)
  {
    var matching := Seqs.Filter(byIdDesc, Shown(session, params, now));
    var shown := Seqs.Take(matching, HomeLimit);
    assert forall u :: u in shown ==> u in matching && Shown(session, params, now)(u);
    shown
  }

  /** A page with fewer than 50 users shows every matching row. */
  lemma HomeUsersComplete(byIdDesc: seq<User>, session: Option<UserId>, params: SearchParams, now: Instant, u: User)
    requires |HomeUsers(byIdDesc, session, params, now)| < HomeLimit
    requires u in byIdDesc && NotViewer(u, session) && MatchesFilters(u, params, now)
    ensures u in HomeUsers(byIdDesc, session, params, now)
  {
    Seqs.FilterMembership(byIdDesc, Shown(session, params, now), u);
  }

  /**
   * The table's order is kept and the first rows win: the rows shown for a table are those of
   * its first part, followed by those of the rest, cut to 50.
   */
  lemma HomeUsersKeepsOrder(front: seq<User>, back: seq<User>, session: Option<UserId>, params: SearchParams, now: Instant)
    ensures HomeUsers(front + back, session, params, now)
         == Seqs.Take(HomeUsers(front, session, params, now) + HomeUsers(back, session, params, now), HomeLimit)
  {
    var p := Shown(session, params, now);
    Seqs.FilterConcat(front, back, p);
    Seqs.TakeConcat(Seqs.Filter(front, p), Seqs.Filter(back, p), HomeLimit);
  }

  /** The like button sits on a card only for a signed-in viewer looking at someone else. */
  predicate ShowLikeButton(session: Option<UserId>, userId: UserId) {
    SignedIn(session) && session.value != userId
  }

  /** `likedStates[user.id] || false`. */
  function InitialIsLiked(likedStates: map<UserId, bool>, userId: UserId): (liked: bool)
    ensures liked <==> userId in likedStates && likedStates[userId]
  {
    if userId in likedStates then likedStates[userId] else false
  }

  function IdsOf(users: seq<User>): set<UserId> {
    set u | u in users :: u.id
  }

  /**
   * The `likedStates` loop: for a signed-in viewer, `hasUserLiked` for every shown user;
   * otherwise nothing is looked up. `failing` holds the users whose lookup throws, which
   * `hasUserLiked` reports as not liked.
   */
  method LikedStates(db: Database, session: Option<UserId>, users: seq<User>, failing: set<UserId>)
    returns (likedStates: map<UserId, bool>)
    ensures !SignedIn(session) ==> likedStates == map[]
    ensures SignedIn(session) ==>
      && likedStates.Keys == IdsOf(users)
      && forall u :: u in users ==>
           (likedStates[u.id] <==> u.id != session.value && u.id !in failing && Edge(session.value, u.id) in db.likes)
  {
    likedStates := map[];
    if !SignedIn(session) {
      return;
    }
    var i := 0;
    while i < |users|
      invariant 0 <= i <= |users|
      invariant likedStates.Keys == IdsOf(users[..i])
      invariant forall u :: u in users[..i] ==>
        (likedStates[u.id] <==> u.id != session.value && u.id !in failing && Edge(session.value, u.id) in db.likes)
    {
      var user := users[i];
      likedStates := likedStates[user.id := LikeActions.HasUserLiked(db, session, user.id, user.id in failing)];
      assert users[..i + 1] == users[..i] + [user];
      i := i + 1;
    }
    assert users[..i] == users;
  }
}
