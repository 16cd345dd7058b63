/** Gaining experience: one call fills at most one level, a loop repeats it until the gain is used up. */
module Experience {

  type ExpTable = t: seq<int> | forall i :: 0 <= i < |t| ==> t[i] > 0 witness []

  function Prefix(table: ExpTable, n: nat): int
    requires n <= |table|
  {
    if n == 0 then 0 else Prefix(table, n - 1) + table[n - 1]
  }

  /** A level inside the table and less experience than it takes to leave it. */
  ghost predicate InLevel(table: ExpTable, level: int, exp: int) {
    1 <= level <= |table| && 0 <= exp < table[level - 1]
  }

  /** All experience ever gained, over all levels. */
  ghost function Cumulative(table: ExpTable, level: int, exp: int): int
    requires 1 <= level <= |table|
  {
    Prefix(table, level - 1) + exp
  }

  lemma {:induction false} PrefixGrows(table: ExpTable, a: nat, b: nat)
    requires a < b <= |table|
    ensures Prefix(table, a) + table[a] <= Prefix(table, b)
    decreases b - a
  {
    if a + 1 < b {
      PrefixGrows(table, a, b - 1);
    }
  }

  /** The cumulative experience determines level and experience. */
  lemma LevelIsUnique(table: ExpTable, l1: int, e1: int, l2: int, e2: int)
    requires InLevel(table, l1, e1) && InLevel(table, l2, e2)
    requires Cumulative(table, l1, e1) == Cumulative(table, l2, e2)
    ensures l1 == l2 && e1 == e2
  {
    if l1 < l2 {
      PrefixGrows(table, l1 - 1, l2 - 1);
    } else if l2 < l1 {
      PrefixGrows(table, l2 - 1, l1 - 1);
    }
  }

  /** Level and experience after a gain, from the table alone. */
  ghost function Reached(table: ExpTable, level: int, exp: int, gain: int): (int, int)
    requires InLevel(table, level, exp) && gain >= 0
    requires Cumulative(table, level, exp) + gain < Prefix(table, |table|)
    decreases |table| - level
  {
    var need := table[level - 1] - exp;
    if gain < need then (level, exp + gain)
    else
      LevelBelowTop(table, level, exp, gain);
      Reached(table, level + 1, 0, gain - need)
  }

  lemma LevelBelowTop(table: ExpTable, level: int, exp: int, gain: int)
    requires InLevel(table, level, exp) && gain >= table[level - 1] - exp
    requires Cumulative(table, level, exp) + gain < Prefix(table, |table|)
    ensures level < |table| && Cumulative(table, level + 1, 0) == Prefix(table, level - 1) + table[level - 1]
  {
  }

  lemma {:induction false} ReachedIsExact(table: ExpTable, level: int, exp: int, gain: int)
    requires InLevel(table, level, exp) && gain >= 0
    requires Cumulative(table, level, exp) + gain < Prefix(table, |table|)
    ensures var (l, e) := Reached(table, level, exp, gain);
            InLevel(table, l, e) && Cumulative(table, l, e) == Cumulative(table, level, exp) + gain
    decreases |table| - level
  {
    var need := table[level - 1] - exp;
    if gain >= need {
      LevelBelowTop(table, level, exp, gain);
      ReachedIsExact(table, level + 1, 0, gain - need);
    }
  }

  /** Two gains in a row lead to the same place as their sum. */
  lemma GainsAdd(table: ExpTable, level: int, exp: int, a: int, b: int)
    requires InLevel(table, level, exp) && a >= 0 && b >= 0
    requires Cumulative(table, level, exp) + a + b < Prefix(table, |table|)
    ensures var (l, e) := Reached(table, level, exp, a);
            && InLevel(table, l, e) && Cumulative(table, l, e) + b < Prefix(table, |table|)
            && Reached(table, l, e, b) == Reached(table, level, exp, a + b)
  {
    ReachedIsExact(table, level, exp, a);
    var (l, e) := Reached(table, level, exp, a);
    ReachedIsExact(table, l, e, b);
    ReachedIsExact(table, level, exp, a + b);
    var (l1, e1) := Reached(table, l, e, b);
    var (l2, e2) := Reached(table, level, exp, a + b);
    LevelIsUnique(table, l1, e1, l2, e2);
  }

  class Character {
    const table: ExpTable
    var level: int
    var exp: int

    /** Fills the current level at most; a negative result means that the gain is used up. */
    method GainOnce(gain: int) returns (left: int)
      requires 1 <= level <= |table|
      modifies this
      ensures left == gain - (table[old(level) - 1] - old(exp))
      ensures left < 0 ==> level == old(level) && exp == old(exp) + gain
      ensures left >= 0 ==> level == old(level) + 1 && exp == 0
    {
      var remaining := table[level - 1] - exp;
      if gain >= remaining {
        exp := 0;
        level := level + 1;
      } else {
        exp := exp + gain;
      }
      left := gain - remaining;
    }

    method Gain(gain: int)
      requires InLevel(table, level, exp) && gain >= 0
      requires Cumulative(table, level, exp) + gain < Prefix(table, |table|)
      modifies this
      ensures (level, exp) == old(Reached(table, level, exp, gain))
      ensures InLevel(table, level, exp) && Cumulative(table, level, exp) == old(Cumulative(table, level, exp)) + gain
    {
      ReachedIsExact(table, level, exp, gain);
      var left := gain;
      while true
        invariant InLevel(table, level, exp) && left >= 0
        invariant Cumulative(table, level, exp) + left == old(Cumulative(table, level, exp)) + gain
        invariant Reached(table, level, exp, left) == old(Reached(table, level, exp, gain))
        decreases |table| - level
      {
        if left >= table[level - 1] - exp {
          LevelBelowTop(table, level, exp, left);
        }
        left := GainOnce(left);
        if left < 0 {
          break;
        }
      }
    }
  }
}
