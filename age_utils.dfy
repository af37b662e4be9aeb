/**
 * The age bucket of a child (`src/backend/utils/ageUtils.ts`). Today's date
 * is a parameter in place of the clock; both dates are `Dates.Date`
 * values.
 */
module AgeUtils {
  import opened Dates

  /** `a` falls strictly before `b` in the calendar. */
  predicate Before(a: Date, b: Date)
  {
    a.year < b.year
    || (a.year == b.year && (a.month < b.month || (a.month == b.month && a.day < b.day)))
  }

  /** `a` is `b` or falls before it. */
  predicate NotAfter(a: Date, b: Date)
  {
    a == b || Before(a, b)
  }

  /** Whole years from `birth` to `today`: the year difference, less one before this year's birthday. */
  function Age(birth: Date, today: Date): (age: int)
    ensures NotAfter(Date(birth.year + age, birth.month, birth.day), today)
    ensures Before(today, Date(birth.year + age + 1, birth.month, birth.day))
  {
    var monthDiff := today.month - birth.month;
    if monthDiff < 0 || (monthDiff == 0 && today.day < birth.day)
    then today.year - birth.year - 1
    else today.year - birth.year
  }

  const Labels: seq<string> := ["0-2 years", "2-5 years", "5-8 years", "8-12 years", "12+ years"]

  /** Which of the five labels an age gets. */
  function Bucket(age: int): (b: nat)
    ensures b < 5
    ensures b == 0 <==> age < 2
    ensures b == 1 <==> 2 <= age < 5
    ensures b == 2 <==> 5 <= age < 8
    ensures b == 3 <==> 8 <= age < 12
    ensures b == 4 <==> 12 <= age
  {
    if age < 2 then 0 else if age < 5 then 1 else if age < 8 then 2 else if age < 12 then 3 else 4
  }

  /** `calculateAgeRange`. */
  function CalculateAgeRange(birth: Date, today: Date): (r: string)
    ensures r in Labels
  {
    Labels[Bucket(Age(birth, today))]
  }

  /** Each label is given for exactly its span of ages. */
  lemma LabelsByAge(birth: Date, today: Date)
    ensures var r, age := CalculateAgeRange(birth, today), Age(birth, today);
      (r == "0-2 years" <==> age < 2) && (r == "2-5 years" <==> 2 <= age < 5)
      && (r == "5-8 years" <==> 5 <= age < 8) && (r == "8-12 years" <==> 8 <= age < 12)
      && (r == "12+ years" <==> 12 <= age)
  {
  }

  /** The result is always one of the five labels, and never empty. */
  lemma AlwaysALabel(birth: Date, today: Date)
    ensures CalculateAgeRange(birth, today) in Labels
    ensures CalculateAgeRange(birth, today) != []
  {
  }

  /** An older birth date is never a smaller age on the same day. */
  lemma AgeMonotone(b1: Date, b2: Date, today: Date)
    requires Before(b1, b2)
    ensures Age(b1, today) >= Age(b2, today)
  {
  }

  /** So an earlier birth date never gets a younger bucket. */
  lemma BucketMonotone(b1: Date, b2: Date, today: Date)
    requires Before(b1, b2)
    ensures Bucket(Age(b1, today)) >= Bucket(Age(b2, today))
  {
    AgeMonotone(b1, b2, today);
  }

  /** A birth date after today gives a negative age, and the youngest label. */
  lemma FutureBirth(birth: Date, today: Date)
    requires Before(today, birth)
    ensures Age(birth, today) < 0
    ensures CalculateAgeRange(birth, today) == "0-2 years"
  {
  }
}
