/**
 * The command-line front end's argument parsers: the strict category
 * parser, the comma-separated tag list and the relative duration of
 * `list --since` (an amount followed by one of s, m, h, d).
 */
module Cli {
  import opened Wrappers
  import opened Types
  import Text

  /** `parseCategory`: one of the seven names, or the error the CLI throws. */
  function ParseCategory(value: string): (r: Result<Category, string>)
    ensures r.Ok? <==> value in CategoryNames
    ensures r.Ok? ==> CategoryName(r.value) == value
    ensures r.Err? ==> r.error == "Invalid category: " + value
  {
    match CategoryOf(value)
    case Some(c) => Ok(c)
    case None => Err("Invalid category: " + value)
  }

  /** `parseTags`: an absent or empty option gives no tags; otherwise the trimmed, non-empty comma pieces. */
  function ParseTags(value: Option<string>): (r: seq<string>)
    ensures value.None? || value.value == "" ==> r == []
    ensures forall i :: 0 <= i < |r| ==> Text.IsCleanTag(r[i])
  {
    if value.None? || value.value == "" then []
    else
      Text.CommaListClean(value.value);
      Text.CommaList(value.value)
  }

  /** Tags written as a comma-joined option come back unchanged. */
  lemma ParseTagsJoin(tags: seq<string>)
    requires forall i :: 0 <= i < |tags| ==> Text.IsCleanTag(tags[i])
    ensures ParseTags(Some(Text.Join(tags, ","))) == tags
  {
    Text.CommaListJoin(tags);
  }

  // Durations

  /** `\d` without the `u` flag: an ASCII digit. */
  predicate IsDigit(c: char) {
    '0' <= c <= '9'
  }

  function DigitValue(c: char): nat {
    if IsDigit(c) then c as int - '0' as int else 0
  }

  /** `Number(digits)` for a string of decimal digits. */
  function DigitsValue(ds: string): nat {
    if ds == [] then 0 else DigitsValue(ds[..|ds| - 1]) * 10 + DigitValue(ds[|ds| - 1])
  }

  /** The milliseconds in one unit: s, m, h or d. */
  function UnitMs(unit: char): (r: Option<nat>)
    ensures r.Some? <==> unit in "smhd"
    ensures r.Some? ==> r.value > 0 && r.value % 1000 == 0
  {
    if unit == 's' then Some(1000)
    else if unit == 'm' then Some(1000 * 60)
    else if unit == 'h' then Some(1000 * 60 * 60)
    else if unit == 'd' then Some(1000 * 60 * 60 * 24)
    else None
  }

  /** `value` matches `/^(\d+)([smhd])$/`. */
  predicate IsDuration(value: string) {
    && |value| >= 2
    && (forall i :: 0 <= i < |value| - 1 ==> IsDigit(value[i]))
    && UnitMs(value[|value| - 1]).Some?
  }

  /**
   * `parseDurationMs`: nothing for an absent, empty or non-matching value;
   * otherwise the amount times the unit's milliseconds, a whole number of
   * seconds.
   */
  function ParseDurationMs(value: Option<string>): (r: Option<nat>)
    ensures r.Some? <==> value.Some? && IsDuration(value.value)
    ensures r.Some? ==> r.value % 1000 == 0
    ensures r.Some? ==>
              var v := value.value;
              r.value == DigitsValue(v[..|v| - 1]) * UnitMs(v[|v| - 1]).value
  {
    if value.None? || value.value == "" || !IsDuration(value.value) then None
    else
      var v := value.value;
      var amount := DigitsValue(v[..|v| - 1]);
      var unitMs := UnitMs(v[|v| - 1]).value;
      assert amount * unitMs == (amount * (unitMs / 1000)) * 1000;
      Some(amount * unitMs)
  }

  /** The decimal digits of `n`, without leading zeros. */
  function Decimal(n: nat): (r: string)
    ensures |r| >= 1
    ensures forall i :: 0 <= i < |r| ==> IsDigit(r[i])
  {
    if n < 10 then [('0' as int + n) as char]
    else Decimal(n / 10) + [('0' as int + n % 10) as char]
  }

  /** Reading back the decimal digits of `n` gives `n`. */
  lemma {:induction false} DecimalValue(n: nat)
    ensures DigitsValue(Decimal(n)) == n
  {
    if n >= 10 {
      DecimalValue(n / 10);
      var ds := Decimal(n);
      assert ds[..|ds| - 1] == Decimal(n / 10);
    }
  }

  /** A duration written as an amount and a unit parses back to that amount of units in milliseconds. */
  lemma ParseFormattedDuration(n: nat, unit: char)
    requires unit in "smhd"
    ensures ParseDurationMs(Some(Decimal(n) + [unit])) == Some(n * UnitMs(unit).value)
  {
    var v := Decimal(n) + [unit];
    assert v[..|v| - 1] == Decimal(n);
    DecimalValue(n);
  }

  /**
   * How `list` turns `--since` into a lower bound: `now` minus the
   * duration, unless the duration is missing or zero (zero is falsy).
   */
  function Since(value: Option<string>, now: int): (r: Option<int>)
    ensures r.Some? <==> ParseDurationMs(value).Some? && ParseDurationMs(value).value != 0
    ensures r.Some? ==> r.value < now && now - r.value == ParseDurationMs(value).value
  {
    var duration := ParseDurationMs(value);
    if duration.Some? && duration.value != 0 then Some(now - duration.value) else None
  }

  /** A zero amount (`0d`, `0s`, ...) is a valid duration that sets no lower bound. */
  lemma ZeroDurationHasNoSince(unit: char, now: int)
    requires unit in "smhd"
    ensures ParseDurationMs(Some(['0', unit])) == Some(0)
    ensures Since(Some(['0', unit]), now) == None
  {
    ParseFormattedDuration(0, unit);
    assert Decimal(0) + [unit] == ['0', unit];
  }

  /** Every positive amount of a unit sets a lower bound that many units before `now`. */
  lemma PositiveDurationSince(n: nat, unit: char, now: int)
    requires n > 0 && unit in "smhd"
    ensures Since(Some(Decimal(n) + [unit]), now) == Some(now - n * UnitMs(unit).value)
  {
    ParseFormattedDuration(n, unit);
  }
}
