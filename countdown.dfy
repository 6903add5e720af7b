/** The countdown of src/app/pages/guest/Home.tsx: once a second the time left
    until the wedding, in milliseconds, is split into days, hours, minutes and
    seconds. */
module HomePage {

  datatype Countdown = Countdown(days: nat, hours: nat, minutes: nat, seconds: nat)

  /** The state before the first tick. */
  const InitialCountdown := Countdown(0, 0, 0, 0)

  const MsPerSecond := 1000
  const MsPerMinute := 60000
  const MsPerHour := 3600000
  const MsPerDay := 86400000

  /** The milliseconds a countdown stands for, down to whole seconds. */
  function Millis(c: Countdown): nat {
    c.days * MsPerDay + c.hours * MsPerHour + c.minutes * MsPerMinute + c.seconds * MsPerSecond
  }

  /** The four fields of the interval callback for a positive difference `d`:
      `floor(d / day)`, `floor((d / hour) % 24)`, `floor((d / 1000 / 60) % 60)`
      and `floor((d / 1000) % 60)`, here in integer arithmetic. */
  function Decompose(d: nat): (c: Countdown)
    ensures c.hours < 24 && c.minutes < 60 && c.seconds < 60
  {
    Countdown(d / MsPerDay, (d / MsPerHour) % 24, (d / MsPerMinute) % 60, (d / MsPerSecond) % 60)
  }

  /** Dividing step by step is dividing by the product. */
  lemma DivisionsCompose(d: nat)
    ensures d / 1000 / 60 == d / 60000
    ensures d / 60000 / 60 == d / 3600000
    ensures d / 3600000 / 24 == d / 86400000
  {
  }

  lemma Digit60(q1: int, r1: int, q2: int, r2: int)
    requires 0 <= r1 < 60 && 0 <= r2 < 60 && q1 * 60 + r1 == q2 * 60 + r2
    ensures q1 == q2 && r1 == r2
  {
  }

  lemma Digit24(q1: int, r1: int, q2: int, r2: int)
    requires 0 <= r1 < 24 && 0 <= r2 < 24 && q1 * 24 + r1 == q2 * 24 + r2
    ensures q1 == q2 && r1 == r2
  {
  }

  /** The fields add back up to the difference, short of less than a second. */
  lemma DecomposeAddsUp(d: nat)
    ensures Millis(Decompose(d)) <= d < Millis(Decompose(d)) + 1000
  {
    DivisionsCompose(d);
    var s := d / 1000;
    var m := s / 60;
    var h := m / 60;
    assert s == m * 60 + s % 60;
    assert m == h * 60 + m % 60;
    assert h == (h / 24) * 24 + h % 24;
    assert Millis(Decompose(d)) == s * 1000;
  }

  /** The decomposition is the only one with hours below 24, minutes and
      seconds below 60 that adds up to `d` short of less than a second. */
  lemma DecomposeUnique(d: nat, c: Countdown)
    requires c.hours < 24 && c.minutes < 60 && c.seconds < 60
    requires Millis(c) <= d < Millis(c) + 1000
    ensures c == Decompose(d)
  {
    DivisionsCompose(d);
    var x2 := c.days * 24 + c.hours;
    var x1 := x2 * 60 + c.minutes;
    var x := x1 * 60 + c.seconds;
    assert Millis(c) == x * 1000;
    var s := d / 1000;
    assert x == s;
    Digit60(x1, c.seconds, s / 60, s % 60);
    var m := d / 60000;
    Digit60(x2, c.minutes, m / 60, m % 60);
    var h := d / 3600000;
    Digit24(c.days, c.hours, h / 24, h % 24);
  }

  /** One tick of the interval: a positive difference is decomposed, otherwise
      the countdown keeps what it showed. */
  function Tick(c: Countdown, difference: int): (r: Countdown)
    ensures difference <= 0 ==> r == c
    ensures difference > 0 ==> Millis(r) <= difference < Millis(r) + 1000
  {
    if difference > 0 then (DecomposeAddsUp(difference); Decompose(difference)) else c
  }

  /** The countdown after a run of ticks with these differences. */
  function Run(c: Countdown, differences: seq<int>): Countdown
    decreases |differences|
  {
    if differences == [] then c else Run(Tick(c, differences[0]), differences[1..])
  }

  /** After the wedding has begun nothing changes any more: a countdown that
      sees only non-positive differences stays where it was, at zero when it
      never saw the wedding ahead. */
  lemma {:induction false} RunPastWeddingKeeps(c: Countdown, differences: seq<int>)
    requires forall i :: 0 <= i < |differences| ==> differences[i] <= 0
    ensures Run(c, differences) == c
    ensures c == InitialCountdown ==> Millis(Run(c, differences)) == 0
    decreases |differences|
  {
    if differences != [] {
      RunPastWeddingKeeps(c, differences[1..]);
    }
  }

  /** The last positive difference decides what is shown. */
  lemma {:induction false} RunShowsLastPositive(c: Countdown, differences: seq<int>, k: nat)
    requires k < |differences| && differences[k] > 0
    requires forall i :: k < i < |differences| ==> differences[i] <= 0
    ensures Run(c, differences) == Decompose(differences[k])
    decreases |differences|
  {
    if k > 0 {
      RunShowsLastPositive(Tick(c, differences[0]), differences[1..], k - 1);
    } else {
      RunPastWeddingKeeps(Tick(c, differences[0]), differences[1..]);
    }
  }
}
