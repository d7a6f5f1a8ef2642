// The adaptive sleep of tcp_thread::update_sleep, libdaylite/src/tcp_thread.cpp.

module Sleep {

  const MAX_SLEEP: nat := 5000
  const MIN_SLEEP: nat := 1000
  const FIRST_SLEEP: nat := 10000

  /** The sleep the packet count asks for. */
  function Wanted(sleep: nat, count: nat): nat {
    var distance := if count != 0 then sleep / count else MAX_SLEEP;
    if distance > MIN_SLEEP then distance else MIN_SLEEP
  }

  /** One update: a tenth of the wanted sleep and nine tenths of the old one. */
  function NextSleep(sleep: nat, count: nat): nat {
    (Wanted(sleep, count) + 9 * sleep) / 10
  }

  function SleepAfter(sleep: nat, counts: seq<nat>): nat
    decreases |counts|
  {
    if counts == [] then sleep else SleepAfter(NextSleep(sleep, counts[0]), counts[1..])
  }

  predicate InRange(sleep: nat) { MIN_SLEEP <= sleep <= FIRST_SLEEP }

  /** For every sequence of packet counts the sleep stays within its range. */
  lemma {:induction false} SleepStaysInRange(sleep: nat, counts: seq<nat>)
    requires InRange(sleep)
    ensures InRange(SleepAfter(sleep, counts)) && 1000 <= SleepAfter(sleep, counts) <= 10000
    decreases |counts|
  {
    if counts != [] {
      QuotientSmaller(sleep, counts[0]);
      SleepStaysInRange(NextSleep(sleep, counts[0]), counts[1..]);
    }
  }

  lemma QuotientSmaller(sleep: nat, count: nat)
    ensures count != 0 ==> sleep / count <= sleep
  {
    if count != 0 {
      Quotient(sleep, count, 1);
    }
  }

  lemma Quotient(sleep: nat, count: nat, least: nat)
    requires 0 < least <= count
    ensures least * (sleep / count) <= sleep
  {
    var q := sleep / count;
    assert sleep == count * q + sleep % count;
    Scale(count, least, q);
  }

  /** Where an idle link settles. */
  function IdleTarget(sleep: nat): nat {
    if sleep > 5000 then 5000 else if sleep < 4991 then 4991 else sleep
  }

  function Distance(a: nat, b: nat): nat { if a < b then b - a else a - b }

  ghost predicate AllZero(counts: seq<nat>) { forall i | 0 <= i < |counts| :: counts[i] == 0 }

  ghost predicate AllBusy(counts: seq<nat>) { forall i | 0 <= i < |counts| :: counts[i] >= 10 }

  /** An idle update moves strictly towards the target, by at least a tenth of the
      way, and never past it; at the target it stays. */
  lemma IdleStep(sleep: nat)
    requires InRange(sleep)
    ensures var next := NextSleep(sleep, 0);
            && IdleTarget(next) == IdleTarget(sleep)
            && (sleep > 5000 ==> 5000 <= next < sleep && 10 * (sleep - next) >= sleep - 5000)
            && (sleep < 4991 ==> sleep < next <= 4991 && 10 * (next - sleep) > 4990 - sleep)
            && (4991 <= sleep <= 5000 ==> next == sleep)
  {}

  /** Under idle input the sleep settles at 5000 from above and at 4991 from below. */
  lemma {:induction false} IdleSettles(sleep: nat, counts: seq<nat>)
    requires InRange(sleep) && AllZero(counts)
    ensures IdleTarget(SleepAfter(sleep, counts)) == IdleTarget(sleep)
    ensures |counts| >= Distance(sleep, IdleTarget(sleep)) ==> SleepAfter(sleep, counts) == IdleTarget(sleep)
    decreases |counts|
  {
    if counts != [] {
      IdleStep(sleep);
      IdleSettles(NextSleep(sleep, 0), counts[1..]);
    }
  }

  /** An update with a few packets: one packet changes nothing; two or more move strictly
      down to the minimum, but no further than a tenth of the way to the share of each. */
  lemma LightStep(sleep: nat, count: nat)
    requires InRange(sleep) && 1 <= count <= 9
    ensures var next := NextSleep(sleep, count);
            && (count == 1 ==> next == sleep)
            && (count >= 2 && sleep > MIN_SLEEP ==> MIN_SLEEP <= next < sleep)
            && (sleep == MIN_SLEEP ==> next == sleep)
            && 9 * sleep + sleep / count < 10 * next + 10
            && (sleep / count >= MIN_SLEEP ==> 10 * next <= 9 * sleep + sleep / count)
  {
    if count >= 2 {
      Quotient(sleep, count, 2);
    }
  }

  /** A busy update, of ten packets or more, moves strictly down to the minimum. */
  lemma BusyStep(sleep: nat, count: nat)
    requires InRange(sleep) && count >= 10
    ensures var next := NextSleep(sleep, count);
            && (sleep > MIN_SLEEP ==> MIN_SLEEP <= next < sleep)
            && (sleep == MIN_SLEEP ==> next == sleep)
  {
    SmallQuotient(sleep, count);
  }

  lemma SmallQuotient(sleep: nat, count: nat)
    requires sleep <= FIRST_SLEEP && count >= 10
    ensures sleep / count <= MIN_SLEEP
  {
    Quotient(sleep, count, 10);
  }

  lemma Scale(a: nat, b: nat, c: nat)
    requires a >= b
    ensures a * c >= b * c
  {}

  /** Under sustained load it reaches the minimum exactly, and stays. */
  lemma {:induction false} BusySettles(sleep: nat, counts: seq<nat>)
    requires InRange(sleep) && AllBusy(counts) && |counts| >= sleep - MIN_SLEEP
    ensures SleepAfter(sleep, counts) == MIN_SLEEP
    decreases |counts|
  {
    if counts != [] {
      BusyStep(sleep, counts[0]);
      BusySettles(NextSleep(sleep, counts[0]), counts[1..]);
    }
  }

  // ---- the arithmetic of the source ---------------------------------------

  /** The weighted sum over the reals, rounded down, is the integer form. */
  lemma RoundedDown(m: nat, s: nat)
    ensures (m as real * 0.1 + s as real * 0.9).Floor == (m + 9 * s) / 10
  {
    var q, x := (m + 9 * s) / 10, m as real * 0.1 + s as real * 0.9;
    assert 10.0 * x == (m + 9 * s) as real;
    assert q as real <= x < q as real + 1.0;
  }

  /** What survives any rounding of the sum by less than a tenth: the result is the exact
      one or, where the sum is a whole number, perhaps one less; and it stays in range
      unless sum and sleep are both at the minimum and the sum is rounded below it. */
  lemma RoundingKeepsRange(sleep: nat, count: nat, sum: real)
    requires InRange(sleep)
    requires var exact := Wanted(sleep, count) as real * 0.1 + sleep as real * 0.9;
             exact - 0.1 < sum < exact + 0.1
    ensures NextSleep(sleep, count) - 1 <= sum.Floor <= NextSleep(sleep, count)
    ensures (0 <= sum.Floor && InRange(sum.Floor))
       <==> !(Wanted(sleep, count) == sleep == MIN_SLEEP && sum < MIN_SLEEP as real)
  {
    var m, next := Wanted(sleep, count), NextSleep(sleep, count);
    var exact := m as real * 0.1 + sleep as real * 0.9;
    assert 10.0 * exact == (m + 9 * sleep) as real;
    assert next as real <= exact <= next as real + 0.9;
    QuotientSmaller(sleep, count);
    if m + sleep > 2 * MIN_SLEEP {
      assert exact >= 1000.1;
    }
  }
}
