/** The limited-drops banner: a countdown to the active drop's launch and a
    carousel that moves to the next drop. The clock is an input: each tick
    receives `diff`, the launch time minus the current time in milliseconds. */
module LimitedDrops {
  import opened Text

  const MsPerSecond: int := 1000
  const MsPerMinute: int := 1000 * 60
  const MsPerHour: int := 1000 * 60 * 60
  const MsPerDay: int := 1000 * 60 * 60 * 24

  /** The sample data has two drops. */
  const DropCount: nat := 2

  datatype TimeRemaining = TimeRemaining(days: int, hours: int, minutes: int, seconds: int)

  const Launched: TimeRemaining := TimeRemaining(0, 0, 0, 0)

  /** The countdown shown for a difference of `diff` milliseconds; all zero
      once the launch time has passed. For a positive `diff` the JavaScript
      floor divisions agree with Dafny's. */
  function Countdown(diff: int): (t: TimeRemaining)
    ensures diff <= 0 ==> t == Launched
    ensures diff > 0 ==>
      && t.days >= 0
      && 0 <= t.hours < 24 && 0 <= t.minutes < 60 && 0 <= t.seconds < 60
  {
    if diff <= 0 then Launched
    else
      TimeRemaining(
        diff / MsPerDay,
        (diff % MsPerDay) / MsPerHour,
        (diff % MsPerHour) / MsPerMinute,
        (diff % MsPerMinute) / MsPerSecond)
  }

  /** Nothing is lost but the milliseconds: the four components add back up
      to `diff` less its remainder below one second. */
  lemma CountdownReconstructs(diff: int)
    requires diff > 0
    ensures var t := Countdown(diff);
      t.days * MsPerDay + t.hours * MsPerHour + t.minutes * MsPerMinute + t.seconds * MsPerSecond
        + diff % MsPerSecond == diff
  {
    var d := diff % MsPerDay;
    var h := d % MsPerHour;
    var m := h % MsPerMinute;
    assert diff == (diff / MsPerDay) * MsPerDay + d;
    assert d % MsPerHour == diff % MsPerHour by {
      ModOfMod(diff, 24, MsPerHour);
    }
    assert d == (d / MsPerHour) * MsPerHour + h;
    assert h % MsPerMinute == diff % MsPerMinute by {
      ModOfMod(diff, 60, MsPerMinute);
    }
    assert h == (h / MsPerMinute) * MsPerMinute + m;
    assert m % MsPerSecond == diff % MsPerSecond by {
      ModOfMod(diff, 60, MsPerSecond);
    }
    assert m == (m / MsPerSecond) * MsPerSecond + m % MsPerSecond;
  }

  /** Reducing modulo a multiple of `b` first does not change the remainder modulo `b`. */
  lemma ModOfMod(x: int, k: int, b: int)
    requires x >= 0 && k > 0 && b > 0
    ensures (x % (k * b)) % b == x % b
  {
    var q := x / (k * b);
    var r := x % (k * b);
    assert x == q * (k * b) + r;
    assert x == (q * k) * b + r;
    ShiftMod(r, q * k, b);
  }

  lemma ShiftMod(r: int, n: int, b: int)
    requires b > 0 && n >= 0 && r >= 0
    ensures (n * b + r) % b == r % b
  {
    var q, s := r / b, r % b;
    assert r == q * b + s;
    assert n * b + r == (n + q) * b + s;
    DivModUnique(n * b + r, n + q, s, b);
  }

  lemma {:induction false} MulAtLeast(k: int, b: int)
    requires k >= 1 && b > 0
    ensures k * b >= b
    decreases k
  {
    if k > 1 {
      MulAtLeast(k - 1, b);
      assert k * b == (k - 1) * b + b;
    }
  }

  /** The quotient and remainder are the only such pair. */
  lemma DivModUnique(x: int, q: int, s: int, b: int)
    requires b > 0 && 0 <= s < b && x == q * b + s
    ensures x / b == q && x % b == s
  {
    var q', s' := x / b, x % b;
    assert x == q' * b + s';
    if q > q' {
      MulGap(q, q', b);
    } else if q < q' {
      MulGap(q', q, b);
    }
  }

  lemma MulGap(hi: int, lo: int, b: int)
    requires hi > lo && b > 0
    ensures hi * b - lo * b >= b
  {
    MulAtLeast(hi - lo, b);
    assert (hi - lo) * b == hi * b - lo * b;
  }

  /** The carousel step `(prev + 1) % limitedDrops.length`. */
  function NextIndex(prev: nat, len: nat): (r: nat)
    requires len > 0
    ensures r < len
    ensures prev < len - 1 ==> r == prev + 1
    ensures prev == len - 1 ==> r == 0
  {
    (prev + 1) % len
  }

  /** The index after `n` steps. */
  function Advance(start: nat, len: nat, n: nat): (r: nat)
    requires len > 0
    ensures n == 0 ==> r == start
    ensures n > 0 || start < len ==> r < len
  {
    if n == 0 then start else NextIndex(Advance(start, len, n - 1), len)
  }

  /** From a valid index, `n` steps land on `(start + n) % len`. */
  lemma {:induction false} AdvanceIsModular(start: nat, len: nat, n: nat)
    requires len > 0 && start < len
    ensures Advance(start, len, n) == (start + n) % len
  {
    if n == 0 {
      DivModUnique(start, 0, start, len);
    } else {
      AdvanceIsModular(start, len, n - 1);
      ModStep(start + n - 1, len);
    }
  }

  /** Stepping the remainder is stepping the number. */
  lemma ModStep(x: nat, len: nat)
    requires len > 0
    ensures NextIndex(x % len, len) == (x + 1) % len
  {
    var q, p := x / len, x % len;
    if p + 1 < len {
      DivModUnique(x + 1, q, p + 1, len);
      DivModUnique(p + 1, 0, p + 1, len);
    } else {
      MulSucc(q, len);
      DivModUnique(x + 1, q + 1, 0, len);
      DivModUnique(len, 1, 0, len);
    }
  }

  lemma MulSucc(q: int, len: int)
    ensures (q + 1) * len == q * len + len
  {
  }

  /** After `len` steps the carousel is back where it started. */
  lemma AdvanceFullCycle(start: nat, len: nat)
    requires len > 0 && start < len
    ensures Advance(start, len, len) == start
  {
    AdvanceIsModular(start, len, len);
    DivModUnique(start + len, 1, start, len);
  }

  /** `formatNumber`: a single digit gets a leading "0"; anything else is
      shown as it is. */
  function FormatNumber(n: nat): (r: string)
    ensures n < 10 ==> r == ['0', DigitChar(n)]
    ensures n >= 10 ==> r == NatToString(n)
  {
    if n < 10 then "0" + NatToString(n) else NatToString(n)
  }

  /** Hours, minutes and seconds are always shown with two digits. */
  lemma FormatNumberTwoDigits(n: nat)
    requires n < 100
    ensures |FormatNumber(n)| == 2
    ensures forall i :: 0 <= i < 2 ==> IsDigit(FormatNumber(n)[i])
  {
    if n >= 10 {
      assert NatToString(n) == NatToString(n / 10) + [DigitChar(n % 10)];
    }
  }

  /** The banner's state. */
  class Banner {
    var timeRemaining: TimeRemaining
    var activeDropIndex: nat

    ghost predicate Valid()
      reads this
    {
      activeDropIndex < DropCount
    }

    constructor ()
      ensures Valid()
      ensures timeRemaining == Launched && activeDropIndex == 0
    {
      timeRemaining := Launched;
      activeDropIndex := 0;
    }

    /** The one-second interval: recompute the countdown from `diff`. */
    method Tick(diff: int)
      modifies this
      ensures timeRemaining == Countdown(diff)
      ensures activeDropIndex == old(activeDropIndex)
    {
      timeRemaining := Countdown(diff);
    }

    /** The ten-second interval: show the next drop. */
    method Rotate()
      requires Valid()
      modifies this
      ensures Valid()
      ensures activeDropIndex == NextIndex(old(activeDropIndex), DropCount)
      ensures timeRemaining == old(timeRemaining)
    {
      activeDropIndex := (activeDropIndex + 1) % DropCount;
    }

    /** A click on the `i`-th indicator dot shows that drop; the dots are
        drawn one per drop, so `i` is a valid index. */
    method Select(i: nat)
      requires i < DropCount
      modifies this
      ensures Valid()
      ensures activeDropIndex == i
      ensures timeRemaining == old(timeRemaining)
    {
      activeDropIndex := i;
    }
  }
}
