/** The self-timer countdown shown over the preview: a number of seconds
    that a once-a-second tick lowers by one, calling the listener when it
    reaches zero, and that can be cancelled before then. */
module CountDown {
  import opened Wrappers

  /** A listener, told apart from others only by its identity. */
  type ListenerId = nat

  /** The view's state: the seconds left, the number of tick messages
      waiting in the handler's queue, the listener of the last start and
      whether the view is shown. */
  datatype State = State(remaining: int, pendingTicks: nat, listener: Option<ListenerId>, visible: bool)

  /** A fresh view. */
  const Initial := State(0, 0, None, false)

  /** `isCountingDown`. */
  predicate IsCountingDown(s: State) {
    s.remaining > 0
  }

  /** The state every operation keeps: one tick waits exactly while counting
      down, and a countdown always has a listener. */
  predicate Good(s: State) {
    s.remaining >= 0 &&
    s.pendingTicks == (if s.remaining > 0 then 1 else 0) &&
    (s.remaining > 0 ==> s.listener.Some? && s.visible)
  }

  /** What an operation leaves behind and which listeners it called. */
  datatype Step = Step(state: State, fired: seq<ListenerId>)

  /** `remainingSecondsChanged`: at zero the view hides and the listener is
      called; otherwise the next tick is queued. */
  function SecondsChanged(s: State, seconds: int): (r: Step)
    requires s.listener.Some?
    ensures r.state.remaining == seconds
    ensures seconds == 0 ==> r.fired == [s.listener.value] && !r.state.visible && r.state.pendingTicks == s.pendingTicks
    ensures seconds != 0 ==> r.fired == [] && r.state.pendingTicks == s.pendingTicks + 1
  {
    if seconds == 0 then Step(s.(remaining := 0, visible := false), [s.listener.value])
    else Step(s.(remaining := seconds, pendingTicks := s.pendingTicks + 1), [])
  }

  /** `cancelCountDown`: stops a running countdown, dropping its queued
      tick, and reports whether there was one. */
  function Cancel(s: State): (r: (bool, State))
    ensures r.0 <==> IsCountingDown(s)
    ensures r.0 ==> r.1.remaining == 0 && r.1.pendingTicks == 0 && !r.1.visible
    ensures !r.0 ==> r.1 == s
    ensures Good(s) ==> Good(r.1)
  {
    if s.remaining > 0 then (true, s.(remaining := 0, pendingTicks := 0, visible := false))
    else (false, s)
  }

  /** `startCountDown`: cancels a running countdown, shows the view and
      counts down from `sec` for the new listener. */
  function Start(s: State, sec: int, listener: ListenerId): (r: Step)
    requires sec >= 0
    ensures r.state.remaining == sec && r.state.listener == Some(listener)
    ensures sec == 0 <==> r.fired == [listener]
    ensures sec > 0 ==> r.fired == []
    ensures Good(s) ==> Good(r.state)
  {
    var cleared := if IsCountingDown(s) then Cancel(s).1 else s;
    SecondsChanged(cleared.(visible := true, listener := Some(listener)), sec)
  }

  /** The handler delivering the queued tick: one second less. Without a
      queued tick nothing happens. */
  function Tick(s: State): (r: Step)
    ensures s.pendingTicks == 0 ==> r == Step(s, [])
    ensures Good(s) ==> Good(r.state)
    ensures Good(s) && s.remaining > 0 ==> r.state.remaining == s.remaining - 1
    ensures Good(s) && s.remaining > 1 ==> r.fired == []
    ensures Good(s) && s.remaining == 1 ==> r.fired == [s.listener.value]
  {
    if s.pendingTicks == 0 || s.listener.None? then Step(s, [])
    else SecondsChanged(s.(pendingTicks := s.pendingTicks - 1), s.remaining - 1)
  }

  /** `k` ticks in a row, and the listeners they call. */
  function Ticks(s: State, k: nat): (r: Step)
    decreases k
  {
    if k == 0 then Step(s, [])
    else
      var first := Tick(s);
      var rest := Ticks(first.state, k - 1);
      Step(rest.state, first.fired + rest.fired)
  }

  /** Before the countdown ends every tick lowers it by one and calls no
      one. */
  lemma {:induction false} TicksBeforeEnd(s: State, k: nat)
    requires Good(s) && k < s.remaining
    ensures Ticks(s, k).state.remaining == s.remaining - k
    ensures Ticks(s, k).state.listener == s.listener
    ensures Ticks(s, k).fired == []
    ensures Good(Ticks(s, k).state)
    decreases k
  {
    if k > 0 {
      TicksBeforeEnd(Tick(s).state, k - 1);
    }
  }

  /** A countdown from `n` calls its listener exactly once, on the `n`-th
      tick, and then stays at zero whatever further ticks come. */
  lemma {:induction false} TicksToEnd(s: State, extra: nat)
    requires Good(s) && s.remaining > 0
    ensures Ticks(s, s.remaining + extra).fired == [s.listener.value]
    ensures Ticks(s, s.remaining + extra).state.remaining == 0
    decreases s.remaining
  {
    var first := Tick(s);
    if s.remaining == 1 {
      IdleTicks(first.state, extra);
    } else {
      TicksToEnd(first.state, extra);
    }
  }

  /** With no countdown running, ticks change nothing and call no one. */
  lemma {:induction false} IdleTicks(s: State, k: nat)
    requires Good(s) && s.remaining == 0
    ensures Ticks(s, k) == Step(s, [])
    decreases k
  {
    if k > 0 {
      IdleTicks(Tick(s).state, k - 1);
    }
  }

  /** A cancelled countdown never calls its listener, however many ticks
      were due. */
  lemma {:induction false} CancelledNeverFires(s: State, k: nat)
    requires Good(s)
    ensures Ticks(Cancel(s).1, k).fired == []
  {
    IdleTicks(Cancel(s).1, k);
  }

  /** Starting `sec` seconds for a listener and letting the ticks run calls
      that listener once and no other, whatever was running before. */
  lemma {:induction false} StartThenRun(s: State, sec: int, listener: ListenerId, extra: nat)
    requires Good(s) && sec >= 0
    ensures var st := Start(s, sec, listener);
      st.fired + Ticks(st.state, sec + extra).fired == [listener]
  {
    var st := Start(s, sec, listener);
    if sec == 0 {
      IdleTicks(st.state, extra);
    } else {
      TicksToEnd(st.state, extra);
    }
  }
}
