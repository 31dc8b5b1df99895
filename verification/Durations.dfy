/** Durations as the command line reads them and the reports print them. */
module Durations {
  import opened Options
  import opened Decimal

  /** Seconds in a unit; 0 for a character that is none. */
  function Multiplier(unit: char): nat {
    if unit == 's' then 1
    else if unit == 'm' then 60
    else if unit == 'h' then 3600
    else if unit == 'd' then 86400
    else 0
  }

  /** `s` is a number and one unit, and means `v` seconds, which fit 64 bits. */
  predicate Denotes(s: string, v: nat) {
    && |s| >= 2 && AllDigits(s[..|s| - 1]) && Multiplier(s[|s| - 1]) > 0
    && v == Value(s[..|s| - 1]) * Multiplier(s[|s| - 1]) && v <= MaxInt64
  }

  /** The scan for the unit, then the two overflow checks. Every accepted text means its value, every
      text with a meaning is accepted, and nothing overflows on the way. */
  method ParseDuration(s: string) returns (r: Option<nat>)
    ensures r.Some? ==> Denotes(s, r.value)
    ensures r.None? ==> forall v :: !Denotes(s, v)
  {
    if s == "" { return None; }
    var i := 0;
    while i < |s| && IsDigit(s[i])
      invariant 0 <= i <= |s| && AllDigits(s[..i])
    {
      i := i + 1;
    }
    if i == 0 || i >= |s| {
      assert i == 0 && |s| >= 2 ==> !IsDigit(s[..|s| - 1][0]);
      assert i >= |s| ==> IsDigit(s[..i][|s| - 1]) && Multiplier(s[|s| - 1]) == 0;
      return None;
    }
    if i + 1 != |s| {
      assert !IsDigit(s[..|s| - 1][i]);
      return None;
    }
    var value := Value(s[..i]);
    var multiplier := Multiplier(s[i]);
    if value > MaxInt64 {
      assert multiplier > 0 ==> value * multiplier > MaxInt64 by { if multiplier > 0 { Grows(value, multiplier); } }
      return None;
    }
    if multiplier == 0 { return None; }
    Overflows(value, multiplier);
    if value > MaxInt64 / multiplier { return None; }
    r := Some(value * multiplier);
  }

  lemma Grows(value: nat, multiplier: nat)
    requires multiplier > 0
    ensures value * multiplier >= value
  {}

  /** The division tells an overflow without causing one. */
  lemma Overflows(value: nat, multiplier: nat)
    requires multiplier == 1 || multiplier == 60 || multiplier == 3600 || multiplier == 86400
    ensures value > MaxInt64 / multiplier <==> value * multiplier > MaxInt64
  {}

  function WithUnit(n: nat, unit: char): string {
    Show(n) + [unit]
  }

  /** The largest unit that divides the duration. */
  function FormatDuration(seconds: nat): string {
    if seconds >= 86400 && seconds % 86400 == 0 then WithUnit(seconds / 86400, 'd')
    else if seconds >= 3600 && seconds % 3600 == 0 then WithUnit(seconds / 3600, 'h')
    else if seconds >= 60 && seconds % 60 == 0 then WithUnit(seconds / 60, 'm')
    else WithUnit(seconds, 's')
  }

  lemma UnitDenotes(n: nat, unit: char, v: nat)
    requires Multiplier(unit) > 0 && v == n * Multiplier(unit) && v <= MaxInt64
    ensures Denotes(WithUnit(n, unit), v)
  {
    ShowThenValue(n);
    var s := WithUnit(n, unit);
    assert s[..|s| - 1] == Show(n);
  }

  /** Every printed duration means the duration it was printed from. */
  lemma FormatDenotes(seconds: nat)
    requires seconds <= MaxInt64
    ensures Denotes(FormatDuration(seconds), seconds)
  {
    if seconds >= 86400 && seconds % 86400 == 0 {
      UnitDenotes(seconds / 86400, 'd', seconds);
    } else if seconds >= 3600 && seconds % 3600 == 0 {
      UnitDenotes(seconds / 3600, 'h', seconds);
    } else if seconds >= 60 && seconds % 60 == 0 {
      UnitDenotes(seconds / 60, 'm', seconds);
    } else {
      UnitDenotes(seconds, 's', seconds);
    }
  }

  lemma Whole(seconds: nat, k: nat)
    requires k > 0 && seconds % k == 0
    ensures seconds / k * k == seconds
  {}

  /** The unit printed is the largest that divides the duration without making it zero. */
  lemma LargestUnitIsPrinted(seconds: nat) returns (n: nat, unit: char)
    ensures FormatDuration(seconds) == Show(n) + [unit] && n * Multiplier(unit) == seconds
    ensures unit == 'd' || seconds % 86400 != 0 || seconds == 0
    ensures unit == 'd' || unit == 'h' || seconds % 3600 != 0 || seconds == 0
    ensures unit != 's' || seconds % 60 != 0 || seconds == 0
    ensures unit == 'd' || unit == 'h' || unit == 'm' || unit == 's'
  {
    if seconds >= 86400 && seconds % 86400 == 0 {
      n, unit := seconds / 86400, 'd';
      Whole(seconds, 86400);
    } else if seconds >= 3600 && seconds % 3600 == 0 {
      n, unit := seconds / 3600, 'h';
      Whole(seconds, 3600);
    } else if seconds >= 60 && seconds % 60 == 0 {
      n, unit := seconds / 60, 'm';
      Whole(seconds, 60);
    } else {
      n, unit := seconds, 's';
    }
  }

  /** The round trip through both functions, for every non-negative 64-bit duration. */
  method FormatThenParse(seconds: nat) returns (r: Option<nat>)
    requires seconds <= MaxInt64
    ensures r == Some(seconds)
  {
    FormatDenotes(seconds);
    r := ParseDuration(FormatDuration(seconds));
  }
}
