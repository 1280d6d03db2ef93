/** The lock_expires_at parameter of a snapshot: a count and a unit, added to the array's clock in 64-bit arithmetic. */
module SnapshotLocks {
  import opened Basics
  import opened Handles

  const HOUR: int := 3_600_000
  const DAY: int := 24 * HOUR
  const WEEK: int := 7 * DAY
  const MONTH: int := 4 * WEEK
  const YEAR: int := 12 * MONTH

  /** Milliseconds in a unit. */
  function Unit(name: string): Option<int> {
    match name
    case "Hours" => Some(HOUR)
    case "Days" => Some(DAY)
    case "Weeks" => Some(WEEK)
    case "Months" => Some(MONTH)
    case "Years" => Some(YEAR)
    case _ => None
  }

  /** `count` units after `now`, in 64-bit arithmetic. */
  function Later(now: int, count: int, unit: int): int {
    Wrap(now + Wrap(count * unit))
  }

  function ExpiryOf(now: int, count: Option<int>, unit: Option<int>): Option<int> {
    if count.None? || count.value < 1 || unit.None? then None else Some(Later(now, count.value, unit.value))
  }

  /** ValidateSnapshotLockingParameter: the time of expiry, or None for text it rejects. */
  function LockExpiry(now: int, text: string): Option<int> {
    var parts := Split(text, " ");
    if |parts| != 2 then None else ExpiryOf(now, Atoi(parts[0]), Unit(parts[1]))
  }

  ghost predicate Reads(text: string, d: string, name: string) {
    text == d + " " + name && ' ' !in d && ' ' !in name
  }

  /** The text stands for `count` times `unit` milliseconds. */
  ghost predicate Means(text: string, count: int, unit: int) {
    exists d, name :: Reads(text, d, name) && Atoi(d) == Some(count) && Unit(name) == Some(unit)
  }

  lemma WrapTwice(now: int, x: int)
    ensures Wrap(now + Wrap(x)) == Wrap(now + x)
  {
    var m := 0x1_0000_0000_0000_0000;
    var k := (x - MIN_INT) / m;
    assert Wrap(x) == x - k * m;
    assert (now + x - MIN_INT - k * m) % m == (now + x - MIN_INT) % m;
  }

  lemma LaterIff(now: int, count: int, unit: int)
    requires IsInt(now) && now >= 0 && count >= 1 && unit > 0
    ensures Later(now, count, unit) == Wrap(now + count * unit)
    ensures Later(now, count, unit) == now + count * unit <==> now + count * unit <= MAX_INT
  {
    WrapTwice(now, count * unit);
    assert count * unit > 0;
  }

  lemma CleanParts(text: string)
    requires |Split(text, " ")| == 2
    ensures var parts := Split(text, " ");
            text == parts[0] + " " + parts[1] && ' ' !in parts[0] && ' ' !in parts[1]
  {
    var (before, after) := Cut(text, " ").value;
    CutIsFirst(text, ' ');
    assert Split(text, " ") == [before] + Split(after, " ");
    CutIsFirst(after, ' ');
  }

  lemma ExpiryOfReading(now: int, text: string, d: string, name: string)
    requires Reads(text, d, name)
    ensures LockExpiry(now, text) == ExpiryOf(now, Atoi(d), Unit(name))
  {
    NoCutWithout(name, " ");
    SplitPair(d, " ", name);
  }

  /** The units in milliseconds. A month has four weeks and a year twelve months. */
  lemma UnitIs(name: string, millis: int)
    ensures Unit(name) == Some(millis) <==>
            (name == "Hours" && millis == 3_600_000) || (name == "Days" && millis == 86_400_000) ||
            (name == "Weeks" && millis == 604_800_000) || (name == "Months" && millis == 2_419_200_000) ||
            (name == "Years" && millis == 29_030_400_000)
  {
  }

  lemma UnitPositive(name: string)
    ensures Unit(name).Some? ==> Unit(name).value > 0
  {
  }

  lemma ExpiryOfMeaning(now: int, text: string, count: int, unit: int)
    requires Means(text, count, unit) && count >= 1
    ensures LockExpiry(now, text) == Some(Later(now, count, unit)) && unit > 0
  {
    var d, name :| Reads(text, d, name) && Atoi(d) == Some(count) && Unit(name) == Some(unit);
    ExpiryOfReading(now, text, d, name);
    UnitPositive(name);
  }

  /** A text is accepted exactly if it means a positive count of a unit. The expiry is then that much later than now,
      less a multiple of 2^64; it is exactly that time if and only if it fits. */
  lemma LockExpiryIff(now: int, text: string)
    requires IsInt(now) && now >= 0
    ensures LockExpiry(now, text).Some? <==> exists count, unit :: Means(text, count, unit) && count >= 1
    ensures forall count, unit :: Means(text, count, unit) && count >= 1 ==>
              LockExpiry(now, text) == Some(Wrap(now + count * unit))
    ensures forall count, unit :: Means(text, count, unit) && count >= 1 ==>
              (LockExpiry(now, text) == Some(now + count * unit) <==> now + count * unit <= MAX_INT)
  {
    if LockExpiry(now, text).Some? {
      CleanParts(text);
      var parts := Split(text, " ");
      assert Reads(text, parts[0], parts[1]);
      assert Means(text, Atoi(parts[0]).value, Unit(parts[1]).value);
    }
    forall count, unit | Means(text, count, unit) && count >= 1
      ensures LockExpiry(now, text) == Some(Wrap(now + count * unit))
      ensures LockExpiry(now, text) == Some(now + count * unit) <==> now + count * unit <= MAX_INT
    {
      ExpiryOfMeaning(now, text, count, unit);
      LaterIff(now, count, unit);
    }
  }

  lemma LockInTime(now: int, text: string, count: int, unit: int)
    requires IsInt(now) && now >= 0 && Means(text, count, unit) && count >= 1 && now + count * unit <= MAX_INT
    ensures LockExpiry(now, text) == Some(now + count * unit) && count * unit > 0 && text != ""
  {
    hide LockExpiry, Later;
    ExpiryOfMeaning(now, text, count, unit);
    LaterIff(now, count, unit);
    assert count * unit > 0;
    var d, name :| Reads(text, d, name) && Atoi(d) == Some(count) && Unit(name) == Some(unit);
    hide Atoi, Unit;
    assert |text| > 0;
  }

  /** Every positive 64-bit count of a unit can be written. */
  lemma PrintedLock(count: int, name: string, unit: int)
    requires 1 <= count <= MAX_INT && Unit(name) == Some(unit) && ' ' !in name
    ensures Means(Itoa(count) + " " + name, count, unit)
  {
    AtoiOfItoa(count);
    ItoaClean(count, ' ');
    assert Reads(Itoa(count) + " " + name, Itoa(count), name);
  }

  lemma LongLock(now: int, text: string)
    requires 0 <= now < 0x1000_0000_0000 && Means(text, 400_000_000, YEAR)
    ensures var expiry := LockExpiry(now, text); expiry.Some? && expiry.value < 0
  {
    ExpiryOfMeaning(now, text, 400_000_000, YEAR);
    LaterIff(now, 400_000_000, YEAR);
  }

  /** A count that is too large is accepted and gives an expiry in the past. */
  lemma LongLockHasExpired(now: int)
    requires 0 <= now < 0x1000_0000_0000
    ensures var expiry := LockExpiry(now, Itoa(400_000_000) + " Years"); expiry.Some? && expiry.value < 0
  {
    hide Itoa, LockExpiry, Means;
    var text := Itoa(400_000_000) + " Years";
    assert text == Itoa(400_000_000) + " " + "Years";
    PrintedLock(400_000_000, "Years", YEAR);
    LongLock(now, text);
  }
}
