/**
 * The profile directory: `calculateAge` (shared verbatim by the likes and bookmarks pages),
 * the visibility rule of the directory query, and the card title with its age suffix.
 */
module UsersPage {
  import opened Wrappers
  import opened Dates
  import opened Store
  import Seqs
  import Strings

  /** The date `years` years after `birth`, as a (year, month, day) triple. */
  function Anniversary(birth: Date, years: int): Date {
    Date(birth.year + years, birth.month, birth.day)
  }

  /**
   * `calculateAge`: the number of birthdays that have passed by `today`. The result is the
   * `age` whose anniversary lies at or before today while the next one lies after it.
   */
  function CalculateAge(birthDate: Option<Date>, today: Date): (age: Option<int>)
    ensures age.None? <==> birthDate.None?
    ensures age.Some? ==>
      && AtOrBefore(Anniversary(birthDate.value, age.value), today)
      && Before(today, Anniversary(birthDate.value, age.value + 1))
  {
    if birthDate.None? then None
    else
      var birth := birthDate.value;
      var age := today.year - birth.year;
      var monthDifference := today.month - birth.month;
      if monthDifference < 0 || (monthDifference == 0 && today.day < birth.day) then Some(age - 1)
      else Some(age)
  }

  /** The age is the year difference, less one exactly when today's (month, day) comes before the birthday's. */
  lemma AgeIsYearDifference(birth: Date, today: Date)
    ensures var age := CalculateAge(Some(birth), today).value;
      && (age == today.year - birth.year || age == today.year - birth.year - 1)
      && (age == today.year - birth.year - 1 <==> MonthDayBefore(today, birth))
  {
  }

  /** On the birthday itself the full year difference counts (the day comparison is strict). */
  lemma AgeOnBirthday(birth: Date, today: Date)
    requires today.month == birth.month && today.day == birth.day
    ensures CalculateAge(Some(birth), today) == Some(today.year - birth.year)
  {
  }

  /** Only one number of years brackets today between two consecutive anniversaries. */
  lemma AgeIsUnique(birth: Date, today: Date, n: int)
    requires AtOrBefore(Anniversary(birth, n), today) && Before(today, Anniversary(birth, n + 1))
    ensures CalculateAge(Some(birth), today) == Some(n)
  {
  }

  /**
   * Reaching an age is a date comparison: someone is at least `n` today exactly when they were
   * born on or before today's (month, day) `n` years ago.
   */
  lemma AtLeastAge(birth: Date, today: Date, n: int)
    ensures CalculateAge(Some(birth), today).value >= n
        <==> AtOrBefore(birth, Date(today.year - n, today.month, today.day))
  {
  }

  /** The directory's row filter: not the viewer, and with a non-empty name or a non-empty image. */
  predicate Listed(u: User, currentUserId: Option<UserId>) {
    && (currentUserId.None? || currentUserId.value == "" || u.id != currentUserId.value)
    && ((u.name.Some? && u.name.value != "") || (u.image.Some? && u.image.value != ""))
  }

  const DirectoryLimit := 50

  /**
   * The directory: the first 50 listed users of `byName`, the user table in ascending name
   * order as the database sorts it.
   */
  function ListUsers(byName: seq<User>, currentUserId: Option<UserId>): (shown: seq<User>)
    ensures |shown| <= DirectoryLimit
    ensures forall u :: u in shown ==> u in byName && Listed(u, currentUserId)
  {
    var listed := Seqs.Filter(byName, ListedFor(currentUserId));
    var shown := Seqs.Take(listed, DirectoryLimit);
    assert forall u :: u in shown ==> u in listed && ListedFor(currentUserId)(u);
    shown
  }

  function ListedFor(currentUserId: Option<UserId>): User -> bool {
    u => Listed(u, currentUserId)
  }

  /**
   * The name order is kept and the first listed rows win: the directory of a table is that of
   * its first part, followed by that of the rest, cut to 50.
   */
  lemma ListUsersKeepsOrder(front: seq<User>, back: seq<User>, currentUserId: Option<UserId>)
    ensures ListUsers(front + back, currentUserId)
         == Seqs.Take(ListUsers(front, currentUserId) + ListUsers(back, currentUserId), DirectoryLimit)
  {
    var p := ListedFor(currentUserId);
    Seqs.FilterConcat(front, back, p);
    Seqs.TakeConcat(Seqs.Filter(front, p), Seqs.Filter(back, p), DirectoryLimit);
  }

  /** A directory shorter than its limit shows every listed user. */
  lemma ListUsersComplete(byName: seq<User>, currentUserId: Option<UserId>, u: User)
    requires |ListUsers(byName, currentUserId)| < DirectoryLimit
    requires u in byName && Listed(u, currentUserId)
    ensures u in ListUsers(byName, currentUserId)
  {
    Seqs.FilterMembership(byName, ListedFor(currentUserId), u);
  }

  /** The ", age" suffix of a card title: shown only for a known, non-zero age. */
  function AgeSuffix(age: Option<int>): (suffix: string)
    ensures suffix == "" <==> age.None? || age.value == 0
    ensures suffix != "" ==> |suffix| > 2 && suffix[..2] == ", " && Strings.ParseInt(suffix[2..]) == age
  {
    if age.Some? && age.value != 0 then
      Strings.IntToStringRoundTrip(age.value);
      assert (", " + Strings.IntToString(age.value))[2..] == Strings.IntToString(age.value);
      ", " + Strings.IntToString(age.value)
    else ""
  }

  /** A card's heading: the name or 'Unbekannter Benutzer', then the age suffix. */
  function CardTitle(u: User, today: Date): string {
    (if u.name.Some? && u.name.value != "" then u.name.value else "Unbekannter Benutzer")
    + AgeSuffix(CalculateAge(u.birthDate, today))
  }
}
