/**
 * The countdown timer: a counter drawn from a generator, decremented by
 * each tick, which reports true on the tick that brings it to zero. A zero
 * counter is an error: at construction, after a reset, and before a tick.
 *
 * The generator is a stream of counts: gen(k) is what the k-th call of
 * one copy of the generator returns. The timer keeps its own copy and the
 * number of calls made on it so far. Construction calls a second copy made
 * before the timer's own, so it reads gen(0) and leaves the timer's copy
 * uncalled. The thrown error is an explicit flag.
 */
module Timers {
  import opened Wrappers

  /** The timer's counter and how many times its generator copy has been called. */
  datatype TimerState = TimerState(drawn: nat, timer: nat)

  /** The result of reset or tick_and_check: whether it threw, what the tick reported, the state after. */
  datatype Stepped = Stepped(threw: bool, fired: bool, state: TimerState)

  /** Timer(gen): the counter is the generator's first value, and zero throws. */
  function Construct(gen: nat -> nat): (r: Option<TimerState>)
    ensures r.None? <==> gen(0) == 0
    ensures r.Some? ==> r.value.drawn == 0 && r.value.timer == gen(0) && r.value.timer > 0
  {
    if gen(0) == 0 then None else Some(TimerState(0, gen(0)))
  }

  /** reset: the counter is the generator's next value; a zero throws, after the counter is set. */
  function ResetSpec(gen: nat -> nat, s: TimerState): (r: Stepped)
    ensures r.state.drawn == s.drawn + 1 && r.state.timer == gen(s.drawn)
    ensures r.threw <==> gen(s.drawn) == 0
    ensures !r.fired
  {
    var v := gen(s.drawn);
    Stepped(v == 0, false, TimerState(s.drawn + 1, v))
  }

  /** tick_and_check: a zero counter throws and nothing changes; otherwise the counter drops by one and the tick reports whether it reached zero. */
  function TickSpec(s: TimerState): (r: Stepped)
    ensures r.threw <==> s.timer == 0
    ensures r.threw ==> r.state == s && !r.fired
    ensures !r.threw ==> r.state == s.(timer := s.timer - 1) && (r.fired <==> s.timer == 1)
  {
    if s.timer == 0 then Stepped(true, false, s)
    else Stepped(false, s.timer - 1 == 0, s.(timer := s.timer - 1))
  }

  /** What k consecutive ticks report, and the state after them; None if one of them throws. */
  function Ticks(s: TimerState, k: nat): (r: Option<(seq<bool>, TimerState)>)
    ensures r.Some? ==> |r.value.0| == k && r.value.1.drawn == s.drawn
  {
    if k == 0 then Some(([], s))
    else
      match Ticks(s, k - 1)
      case None => None
      case Some((rs, s1)) =>
        var st := TickSpec(s1);
        if st.threw then None else Some((rs + [st.fired], st.state))
  }

  /** The reports of the first k ticks of a countdown from n: true only at tick n. */
  function Countdown(n: nat, k: nat): seq<bool>
  {
    seq(k, i => i == n - 1)
  }

  /**
   * From a counter n, the first k <= n ticks do not throw: each reports
   * false except the n-th, which reports true, and k ticks leave n - k.
   */
  lemma {:induction false} TicksCountDown(s: TimerState, k: nat)
    requires k <= s.timer
    ensures Ticks(s, k) == Some((Countdown(s.timer, k), s.(timer := s.timer - k)))
  {
    if k > 0 {
      TicksCountDown(s, k - 1);
      var s1 := s.(timer := s.timer - (k - 1));
      var st := TickSpec(s1);
      assert !st.threw && st.fired == (k - 1 == s.timer - 1) && st.state == s.(timer := s.timer - k);
      assert Countdown(s.timer, k - 1) + [st.fired] == Countdown(s.timer, k);
      assert Ticks(s, k) == Some((Countdown(s.timer, k - 1) + [st.fired], st.state));
    } else {
      assert Countdown(s.timer, 0) == [];
    }
  }

  /**
   * A timer at n > 0 fires on exactly the n-th tick: n - 1 ticks report
   * false, the n-th reports true, and the tick after that throws.
   */
  lemma FiresAfterExactlyN(s: TimerState)
    requires s.timer > 0
    ensures Ticks(s, s.timer).Some?
    ensures var rs := Ticks(s, s.timer).value.0;
      (forall i :: 0 <= i < s.timer - 1 ==> !rs[i]) && rs[s.timer - 1]
    ensures Ticks(s, s.timer + 1).None?
  {
    TicksCountDown(s, s.timer);
  }

  /** Timer(num): the generator that always returns num. */
  function Constant(num: nat): nat -> nat
  {
    _ => num
  }

  /** A timer built from a count throws exactly when the count is zero. */
  lemma ConstructFromCount(num: nat)
    ensures Construct(Constant(num)).None? <==> num == 0
    ensures num > 0 ==> Construct(Constant(num)) == Some(TimerState(0, num))
  {
  }

  /** Reset draws the generator's values in order, one per call. */
  lemma {:induction false} ResetsDrawInOrder(gen: nat -> nat, s: TimerState)
    ensures ResetSpec(gen, ResetSpec(gen, s).state).state == TimerState(s.drawn + 2, gen(s.drawn + 1))
  {
  }

  class Timer {
    /** m_gen: the timer's own copy of the generator. */
    const gen: nat -> nat
    /** How many times the timer's copy has been called. */
    var drawn: nat
    /** m_timer. */
    var timer: nat

    function State(): TimerState
      reads this
    {
      TimerState(drawn, timer)
    }

    /** The member initialisers: the copy is uncalled, the counter is the first value of the other copy. */
    constructor (gen: nat -> nat)
      ensures this.gen == gen && drawn == 0 && timer == gen(0)
    {
      this.gen := gen;
      drawn := 0;
      timer := gen(0);
    }

    /** Timer(gen) with its zero_check: None where construction throws. */
    static method Make(gen: nat -> nat) returns (t: Option<Timer>)
      ensures t.Some? ==> fresh(t.value) && t.value.gen == gen
      ensures t.None? <==> Construct(gen).None?
      ensures t.Some? ==> t.value.State() == Construct(gen).value
    {
      var timer := new Timer(gen);
      var threw := timer.ZeroCheck();
      if threw {
        t := None;
      } else {
        t := Some(timer);
      }
    }

    /** zero_check: throws exactly when the counter is zero. */
    method ZeroCheck() returns (threw: bool)
      ensures threw <==> timer == 0
    {
      threw := timer == 0;
    }

    /** reset: take the generator's next value, then check it. */
    method Reset() returns (threw: bool)
      modifies this
      ensures var r := ResetSpec(gen, old(State()));
        threw == r.threw && State() == r.state
    {
      timer := gen(drawn);
      drawn := drawn + 1;
      threw := ZeroCheck();
    }

    /** tick_and_check: check, decrement, and report whether the counter reached zero. */
    method TickAndCheck() returns (threw: bool, fired: bool)
      modifies this
      ensures var r := TickSpec(old(State()));
        threw == r.threw && fired == r.fired && State() == r.state
    {
      threw := ZeroCheck();
      if threw {
        fired := false;
        return;
      }
      timer := timer - 1;
      fired := timer == 0;
    }
  }

  /** A timer built from the count 1 reports true on its first tick. */
  method CountOfOne() returns (fired: bool)
    ensures fired
  {
    var t := Timer.Make(Constant(1));
    assert t.Some?;
    var threw;
    threw, fired := t.value.TickAndCheck();
  }

  /** A timer cannot be built from the count 0. */
  method CountOfZero() returns (built: bool)
    ensures !built
  {
    var t := Timer.Make(Constant(0));
    built := t.Some?;
  }

  /**
   * A generator whose k-th call returns 2(k + 1), as a functor adding 2 to
   * its own total. Construction reads 2 from a separate copy, so the first
   * reset reads 2 again and the second reads 4.
   */
  method CumulativeAdd() returns (reports: seq<bool>)
    ensures reports == [false, true, false, true, false, false, false, true]
  {
    var t := Timer.Make(k => 2 * (k + 1));
    assert t.Some?;
    var timer := t.value;
    var threw, fired;
    reports := [];
    threw, fired := timer.TickAndCheck();
    reports := reports + [fired];
    threw, fired := timer.TickAndCheck();
    reports := reports + [fired];
    threw := timer.Reset();
    threw, fired := timer.TickAndCheck();
    reports := reports + [fired];
    threw, fired := timer.TickAndCheck();
    reports := reports + [fired];
    threw := timer.Reset();
    threw, fired := timer.TickAndCheck();
    reports := reports + [fired];
    threw, fired := timer.TickAndCheck();
    reports := reports + [fired];
    threw, fired := timer.TickAndCheck();
    reports := reports + [fired];
    threw, fired := timer.TickAndCheck();
    reports := reports + [fired];
  }
}
