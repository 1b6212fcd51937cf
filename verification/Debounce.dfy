/**
 The event debouncer (docker-gen/generator.go) and the wait it is given (docker-gen/config.go), as a timed state
 machine: each turn of the select loop takes one ready case, and a timer is taken when it is due. An event that
 arrives at the very moment a timer is due may be taken before or after it.
 */
module Debouncer {
  import opened Common

  datatype Wait = Wait(min: int, max: int)

  /**
   ParseWait on the durations it reads: None for the first when the text is blank, for the second when there is
   one part.
   */
  function ParseWait(min: Option<int>, max: Option<int>): (r: Option<Wait>)
    ensures r.Some? && r.value.min > 0 ==> r.value.min <= r.value.max
    ensures r.None? <==> min.Some? && max.Some? && max.value < min.value
    ensures min.Some? && max.None? ==> r == Some(Wait(min.value, min.value + min.value + min.value + min.value))
    ensures r.Some? && min.Some? ==> r.value.min == min.value && (max.Some? ==> r.value.max == max.value)
  {
    if min.None? then Some(Wait(0, 0))
    else if max.None? then Some(Wait(min.value, 4 * min.value))
    else if max.value < min.value then None
    else Some(Wait(min.value, max.value))
  }

  /** One ready case of the select, with the time at which it is taken */
  datatype Choice<E> = Input(t: int, event: E) | MinFires(t: int) | MaxFires(t: int) | InputCloses(t: int)

  datatype Emission<E> = Emission(t: int, event: Option<E>)

  /** The goroutine's variables; a timer is the time at which it is due. */
  datatype Loop<E> = Loop(event: Option<E>, minTimer: Option<int>, maxTimer: Option<int>, output: seq<Emission<E>>,
      open: bool)

  function Turn<E>(wait: Wait, s: Loop<E>, c: Choice<E>): Loop<E> {
    if !s.open then s else
      match c
      case Input(t, event) =>
        s.(event := Some(event), minTimer := Some(t + wait.min),
           maxTimer := if s.maxTimer.None? then Some(t + wait.max) else s.maxTimer)
      case MinFires(t) => s.(minTimer := None, maxTimer := None, output := s.output + [Emission(t, s.event)])
      case MaxFires(t) => s.(minTimer := None, maxTimer := None, output := s.output + [Emission(t, s.event)])
      case InputCloses(_) => s.(open := false)
  }

  /**
   A case may be taken at its time: time does not run back, no timer that is due earlier is left waiting, a nil
   timer never fires.
   */
  predicate Ready<E>(s: Loop<E>, now: int, c: Choice<E>) {
    && now <= c.t
    && (s.minTimer.Some? ==> c.t <= s.minTimer.value) && (s.maxTimer.Some? ==> c.t <= s.maxTimer.value)
    && (c.MinFires? ==> s.minTimer == Some(c.t)) && (c.MaxFires? ==> s.maxTimer == Some(c.t))
  }

  // ----- whole runs -----

  datatype Received<E> = Received(t: int, event: E)

  /** A run so far: the loop, the inputs it took, how many it had taken at each emission, and the time */
  datatype Trace<E> = Trace(s: Loop<E>, inputs: seq<Received<E>>, cuts: seq<nat>, now: int)

  function Start<E>(): Loop<E> {
    Loop(None, None, None, [], true)
  }

  function Extend<E>(wait: Wait, tr: Trace<E>, c: Choice<E>): Trace<E> {
    if !tr.s.open then tr
    else Trace(Turn(wait, tr.s, c),
               if c.Input? then tr.inputs + [Received(c.t, c.event)] else tr.inputs,
               if c.MinFires? || c.MaxFires? then tr.cuts + [|tr.inputs|] else tr.cuts,
               c.t)
  }

  function Run<E>(wait: Wait, start: int, choices: seq<Choice<E>>): Trace<E> {
    if choices == [] then Trace(Start(), [], [], start)
    else Extend(wait, Run(wait, start, choices[..|choices| - 1]), choices[|choices| - 1])
  }

  /** Every choice of the run could be taken when it was. */
  predicate Timed<E>(wait: Wait, start: int, choices: seq<Choice<E>>) {
    choices == [] ||
    (var before := choices[..|choices| - 1];
     var tr := Run(wait, start, before);
     Timed(wait, start, before) && (tr.s.open ==> Ready(tr.s, tr.now, choices[|choices| - 1])))
  }

  /** Where the k-th burst begins among the inputs */
  function From<E>(tr: Trace<E>, k: nat): nat
    requires k <= |tr.cuts|
  {
    if k == 0 then 0 else tr.cuts[k - 1]
  }

  /** When a burst from input i to input j is over: Min after its last input, at most Max after its first */
  function Deadline<E>(wait: Wait, inputs: seq<Received<E>>, i: nat, j: nat): int
    requires i < |inputs| && j < |inputs|
  {
    Min(inputs[j].t + wait.min, inputs[i].t + wait.max)
  }

  /** Inputs i to j - 1 are one burst: each arrives no later than the deadline the ones before it set. */
  ghost predicate Burst<E>(wait: Wait, inputs: seq<Received<E>>, i: nat, j: nat)
    requires i <= j <= |inputs|
  {
    forall m :: i <= m && m + 1 < j ==> inputs[m + 1].t <= Deadline(wait, inputs, i, m)
  }

  /** The k-th emission: at the deadline of a nonempty burst, with its newest event, before any later input */
  ghost predicate Emitted<E>(wait: Wait, tr: Trace<E>, k: nat)
    requires k < |tr.cuts| && |tr.cuts| == |tr.s.output|
  {
    var i, j := From(tr, k), tr.cuts[k];
    && i < j <= |tr.inputs| && Burst(wait, tr.inputs, i, j)
    && tr.s.output[k] == Emission(Deadline(wait, tr.inputs, i, j - 1), Some(tr.inputs[j - 1].event))
    && (j < |tr.inputs| ==> tr.s.output[k].t <= tr.inputs[j].t)
    && tr.inputs[j - 1].t <= tr.s.output[k].t <= tr.now
  }

  /** What has arrived since the last emission is a burst whose timers are set, and neither is overdue. */
  ghost predicate Waiting<E>(wait: Wait, tr: Trace<E>)
    requires |tr.cuts| == |tr.s.output|
  {
    var i, n := From(tr, |tr.cuts|), |tr.inputs|;
    && i <= n && Burst(wait, tr.inputs, i, n)
    && if i == n then tr.s.minTimer.None? && tr.s.maxTimer.None? else
         && tr.s.minTimer == Some(tr.inputs[n - 1].t + wait.min)
         && tr.s.maxTimer == Some(tr.inputs[i].t + wait.max)
         && tr.s.event == Some(tr.inputs[n - 1].event)
         && tr.inputs[n - 1].t <= tr.now
         && (tr.s.open ==> tr.now <= Deadline(wait, tr.inputs, i, n - 1))
  }

  /** Inputs are numbered in the order of their times. */
  ghost predicate Ordered<E>(tr: Trace<E>) {
    && (forall i, j :: 0 <= i <= j < |tr.inputs| ==> tr.inputs[i].t <= tr.inputs[j].t)
    && (forall i :: 0 <= i < |tr.inputs| ==> tr.inputs[i].t <= tr.now)
  }

  ghost predicate Sound<E>(wait: Wait, tr: Trace<E>) {
    && |tr.cuts| == |tr.s.output|
    && Ordered(tr) && Waiting(wait, tr)
    && forall k :: 0 <= k < |tr.cuts| ==> Emitted(wait, tr, k)
  }

  lemma BurstPrefix<E>(wait: Wait, inputs: seq<Received<E>>, more: seq<Received<E>>, i: nat, j: nat)
    requires i <= j <= |inputs| && Burst(wait, inputs, i, j)
    ensures Burst(wait, inputs + more, i, j)
  {
    forall m | i <= m && m + 1 < j
      ensures (inputs + more)[m + 1].t <= Deadline(wait, inputs + more, i, m)
    {
      assert inputs[m + 1].t <= Deadline(wait, inputs, i, m);
    }
  }

  /** What was emitted stays as it was when an input arrives later. */
  lemma EmittedStays<E>(wait: Wait, tr: Trace<E>, tr': Trace<E>, r: Received<E>, k: nat)
    requires Sound(wait, tr) && k < |tr.cuts| && tr.now <= r.t
    requires tr'.cuts == tr.cuts && tr'.s.output == tr.s.output && tr'.now == r.t
    requires tr'.inputs == tr.inputs + [r]
    ensures Emitted(wait, tr', k)
  {
    hide Burst, Waiting;
    assert Emitted(wait, tr, k);
    BurstPrefix(wait, tr.inputs, [r], From(tr, k), tr.cuts[k]);
  }

  lemma InputSound<E>(wait: Wait, tr: Trace<E>, c: Choice<E>)
    requires 0 < wait.min <= wait.max && Sound(wait, tr) && tr.s.open && c.Input? && Ready(tr.s, tr.now, c)
    ensures Sound(wait, Extend(wait, tr, c))
  {
    hide Emitted;
    var tr' := Extend(wait, tr, c);
    var r := Received(c.t, c.event);
    forall k | 0 <= k < |tr.cuts|
      ensures Emitted(wait, tr', k)
    {
      EmittedStays(wait, tr, tr', r, k);
    }
    var i, n := From(tr, |tr.cuts|), |tr.inputs|;
    BurstPrefix(wait, tr.inputs, [r], i, n);
    if i < n {
      forall m | i <= m && m + 1 < n + 1
        ensures tr'.inputs[m + 1].t <= Deadline(wait, tr'.inputs, i, m)
      {
        if m + 1 == n {
          assert tr'.inputs[m] == tr.inputs[n - 1] && tr'.inputs[n] == r;
        }
      }
    }
  }

  /** An emission leaves the earlier ones as they were. */
  lemma EmittedBefore<E>(wait: Wait, tr: Trace<E>, tr': Trace<E>, k: nat)
    requires Sound(wait, tr) && k < |tr.cuts| && tr'.inputs == tr.inputs && tr.now <= tr'.now
    requires |tr'.cuts| == |tr'.s.output| && tr.cuts <= tr'.cuts && tr.s.output <= tr'.s.output
    ensures Emitted(wait, tr', k)
  {
    hide Burst, Waiting;
    assert Emitted(wait, tr, k);
    assert From(tr', k) == From(tr, k);
  }

  lemma EmittedNow<E>(wait: Wait, tr: Trace<E>, c: Choice<E>)
    requires 0 < wait.min <= wait.max && Sound(wait, tr) && tr.s.open && Ready(tr.s, tr.now, c)
    requires c.MinFires? || c.MaxFires?
    ensures Emitted(wait, Extend(wait, tr, c), |tr.cuts|)
  {
    hide Burst;
    var tr' := Extend(wait, tr, c);
    assert From(tr', |tr.cuts|) == From(tr, |tr.cuts|);
  }

  lemma NothingWaits<E>(wait: Wait, inputs: seq<Received<E>>)
    ensures Burst(wait, inputs, |inputs|, |inputs|)
  {
  }

  lemma FiresSound<E>(wait: Wait, tr: Trace<E>, c: Choice<E>)
    requires 0 < wait.min <= wait.max && Sound(wait, tr) && tr.s.open && Ready(tr.s, tr.now, c)
    requires c.MinFires? || c.MaxFires?
    ensures Sound(wait, Extend(wait, tr, c))
  {
    hide Emitted, Burst;
    var tr' := Extend(wait, tr, c);
    forall k | 0 <= k < |tr'.cuts|
      ensures Emitted(wait, tr', k)
    {
      if k < |tr.cuts| {
        EmittedBefore(wait, tr, tr', k);
      } else {
        EmittedNow(wait, tr, c);
      }
    }
    NothingWaits(wait, tr.inputs);
  }

  lemma ExtendSound<E>(wait: Wait, tr: Trace<E>, c: Choice<E>)
    requires 0 < wait.min <= wait.max && Sound(wait, tr) && (tr.s.open ==> Ready(tr.s, tr.now, c))
    ensures Sound(wait, Extend(wait, tr, c))
  {
    if tr.s.open {
      match c
      case Input(_, _) => InputSound(wait, tr, c);
      case MinFires(_) => FiresSound(wait, tr, c);
      case MaxFires(_) => FiresSound(wait, tr, c);
      case InputCloses(_) =>
        forall k | 0 <= k < |tr.cuts|
          ensures Emitted(wait, Extend(wait, tr, c), k)
        {
          assert Emitted(wait, tr, k);
        }
    }
  }

  lemma StartSound<E>(wait: Wait, start: int)
    ensures Sound(wait, Trace(Start<E>(), [], [], start))
  {
  }

  /**
   In every timed run the inputs are cut into bursts, one for each emission and the one still waiting; each
   emission carries the newest event of its burst, at the earlier of Min after its last and Max after its first.
   */
  lemma {:induction false} RunSound<E>(wait: Wait, start: int, choices: seq<Choice<E>>)
    requires 0 < wait.min <= wait.max && Timed(wait, start, choices)
    ensures Sound(wait, Run(wait, start, choices))
  {
    hide Sound, Extend;
    if choices == [] {
      StartSound<E>(wait, start);
    } else {
      var before := choices[..|choices| - 1];
      RunSound(wait, start, before);
      ExtendSound(wait, Run(wait, start, before), choices[|choices| - 1]);
    }
  }

  // ----- what the debouncer promises -----

  /** Both timers are set or neither is, and exactly when an event has arrived since the last emission. */
  lemma {:induction false} TimersTogether<E>(wait: Wait, start: int, choices: seq<Choice<E>>)
    requires 0 < wait.min <= wait.max && Timed(wait, start, choices)
    ensures var tr := Run(wait, start, choices);
            && |tr.cuts| == |tr.s.output|
            && (tr.s.minTimer.Some? <==> tr.s.maxTimer.Some?)
            && (tr.s.minTimer.Some? <==> From(tr, |tr.cuts|) < |tr.inputs|)
  {
    hide Run, Emitted, Burst;
    RunSound(wait, start, choices);
  }

  /**
   Each emission carries the newest event, at least one event has arrived since the one before, and it comes
   within Max of the first of them and Min after the last, unless Max has then just expired.
   */
  lemma EmissionPromise<E>(wait: Wait, start: int, choices: seq<Choice<E>>, k: nat)
    requires 0 < wait.min <= wait.max && Timed(wait, start, choices) && k < |Run(wait, start, choices).s.output|
    ensures var tr := Run(wait, start, choices);
            && |tr.cuts| == |tr.s.output| && From(tr, k) < tr.cuts[k] <= |tr.inputs|
            && var first, last, out := tr.inputs[From(tr, k)], tr.inputs[tr.cuts[k] - 1], tr.s.output[k];
            && out.event == Some(last.event)
            && first.t <= last.t <= out.t <= first.t + wait.max && out.t <= last.t + wait.min
            && (out.t < last.t + wait.min ==> out.t == first.t + wait.max)
  {
    hide Run, Waiting;
    RunSound(wait, start, choices);
    var tr := Run(wait, start, choices);
    assert Emitted(wait, tr, k);
  }

  /** No event waits longer than Max while the input is open. */
  lemma NothingOverdue<E>(wait: Wait, start: int, choices: seq<Choice<E>>, p: nat)
    requires 0 < wait.min <= wait.max && Timed(wait, start, choices)
    requires var tr := Run(wait, start, choices); tr.s.open && p < |tr.inputs|
    ensures var tr := Run(wait, start, choices);
            |tr.cuts| == |tr.s.output| && (tr.now > tr.inputs[p].t + wait.max ==> p < From(tr, |tr.cuts|))
  {
    hide Run, Emitted, Burst;
    RunSound(wait, start, choices);
  }

  /** When the next timer is due, if one is set */
  function NextDue<E>(s: Loop<E>): Option<int> {
    if s.minTimer.None? then s.maxTimer
    else if s.maxTimer.None? then s.minTimer
    else Some(Min(s.minTimer.value, s.maxTimer.value))
  }

  lemma OneMore<E>(wait: Wait, start: int, choices: seq<Choice<E>>, c: Choice<E>)
    requires Timed(wait, start, choices)
    ensures var tr := Run(wait, start, choices);
            Ready(tr.s, tr.now, c) ==> Timed(wait, start, choices + [c])
  {
    assert (choices + [c])[..|choices + [c]| - 1] == choices;
  }

  /**
   The loop is never stuck: while it is open, an input or a close can come at any time from now until a timer is due,
   that moment included, and when one is due it can fire.
   */
  lemma NeverStuck<E>(wait: Wait, start: int, choices: seq<Choice<E>>, t: int, event: E)
    requires 0 < wait.min <= wait.max && Timed(wait, start, choices) && Run(wait, start, choices).s.open
    ensures var tr := Run(wait, start, choices);
            var due := NextDue(tr.s);
            && (tr.now <= t && (due.Some? ==> t <= due.value) ==>
                  && Timed(wait, start, choices + [Input(t, event)])
                  && Timed(wait, start, choices + [InputCloses(t)]))
            && (due.Some? ==>
                  && tr.now <= due.value
                  && (tr.s.minTimer == due ==> Timed(wait, start, choices + [MinFires(due.value)]))
                  && (tr.s.maxTimer == due ==> Timed(wait, start, choices + [MaxFires(due.value)])))
  {
    hide Emitted, Burst, Run;
    RunSound(wait, start, choices);
    OneMore(wait, start, choices, Input(t, event));
    OneMore(wait, start, choices, InputCloses(t));
    var due := NextDue(Run(wait, start, choices).s);
    if due.Some? {
      OneMore(wait, start, choices, MinFires(due.value));
      OneMore(wait, start, choices, MaxFires(due.value));
    }
  }

  /** After the input closes nothing is emitted any more: an event that was waiting is dropped. */
  lemma {:induction false} CloseIsFinal<E>(wait: Wait, start: int, choices: seq<Choice<E>>, more: seq<Choice<E>>)
    requires !Run(wait, start, choices).s.open
    ensures Run(wait, start, choices + more) == Run(wait, start, choices)
    decreases |more|
  {
    if more == [] {
      assert choices + more == choices;
    } else {
      CloseIsFinal(wait, start, choices, more[..|more| - 1]);
      assert (choices + more)[..|choices + more| - 1] == choices + more[..|more| - 1];
    }
  }

  // ----- a reference without timers -----

  /** The end of the burst that begins with input i and holds at least the inputs before j */
  function BurstEnd<E>(wait: Wait, inputs: seq<Received<E>>, i: nat, j: nat): (r: nat)
    requires i < j <= |inputs|
    ensures j <= r <= |inputs|
    decreases |inputs| - j
  {
    if j < |inputs| && inputs[j].t < Deadline(wait, inputs, i, j - 1) then BurstEnd(wait, inputs, i, j + 1) else j
  }

  /** What should have been emitted by now; at the very deadline of the last burst, only if the loop is idle */
  function Expected<E>(wait: Wait, inputs: seq<Received<E>>, i: nat, now: int, idle: bool): seq<Emission<E>>
    requires i <= |inputs|
    decreases |inputs| - i
  {
    if i == |inputs| then []
    else
      var j := BurstEnd(wait, inputs, i, i + 1);
      var t := Deadline(wait, inputs, i, j - 1);
      if t < now || (t == now && idle) then
        [Emission(t, Some(inputs[j - 1].event))] + Expected(wait, inputs, j, now, idle)
      else []
  }

  /** No input arrives at the very moment a timer is due. */
  ghost predicate NoTies<E>(wait: Wait, inputs: seq<Received<E>>) {
    forall i, j :: 0 <= i <= j && j + 1 < |inputs| ==> inputs[j + 1].t != Deadline(wait, inputs, i, j)
  }

  lemma {:induction false} BurstEndIs<E>(wait: Wait, inputs: seq<Received<E>>, i: nat, m: nat, j: nat)
    requires i < m <= j <= |inputs| && Burst(wait, inputs, i, j) && NoTies(wait, inputs)
    requires j < |inputs| ==> Deadline(wait, inputs, i, j - 1) <= inputs[j].t
    ensures BurstEnd(wait, inputs, i, m) == j
    decreases j - m
  {
    if m < j {
      assert inputs[m - 1 + 1].t <= Deadline(wait, inputs, i, m - 1);
      assert inputs[m - 1 + 1].t != Deadline(wait, inputs, i, m - 1);
      BurstEndIs(wait, inputs, i, m + 1, j);
    }
  }

  lemma NothingMore<E>(wait: Wait, tr: Trace<E>)
    requires 0 < wait.min <= wait.max && Sound(wait, tr) && NoTies(wait, tr.inputs) && tr.s.open
    ensures Expected(wait, tr.inputs, From(tr, |tr.cuts|), tr.now, tr.s.minTimer.None?) == []
  {
    hide Burst, NoTies, Emitted;
    var i := From(tr, |tr.cuts|);
    if i < |tr.inputs| {
      BurstEndIs(wait, tr.inputs, i, i + 1, |tr.inputs|);
    }
  }

  /** An emission made is one that was due. */
  lemma Due<E>(wait: Wait, tr: Trace<E>, k: nat)
    requires 0 < wait.min <= wait.max && Sound(wait, tr) && NoTies(wait, tr.inputs) && tr.s.open && k < |tr.cuts|
    ensures tr.s.output[k].t < tr.now || (tr.s.output[k].t == tr.now && tr.s.minTimer.None?)
  {
    hide Burst;
    var i, j := From(tr, k), tr.cuts[k];
    assert Emitted(wait, tr, k);
    assert k + 1 < |tr.cuts| ==> Emitted(wait, tr, k + 1);
    if j < |tr.inputs| {
      assert tr.inputs[j - 1 + 1].t != Deadline(wait, tr.inputs, i, j - 1);
    }
  }

  /** The k-th emission is the one the reference makes for the burst that begins there. */
  lemma NextEmission<E>(wait: Wait, tr: Trace<E>, k: nat)
    requires 0 < wait.min <= wait.max && Sound(wait, tr) && NoTies(wait, tr.inputs) && tr.s.open && k < |tr.cuts|
    ensures From(tr, k) < tr.cuts[k] <= |tr.inputs|
    ensures Expected(wait, tr.inputs, From(tr, k), tr.now, tr.s.minTimer.None?) ==
            [tr.s.output[k]] + Expected(wait, tr.inputs, tr.cuts[k], tr.now, tr.s.minTimer.None?)
  {
    hide Burst, Waiting, Ordered, BurstEnd, NoTies, Deadline;
    assert Emitted(wait, tr, k);
    Due(wait, tr, k);
    hide Sound;
    var i, j := From(tr, k), tr.cuts[k];
    BurstEndIs(wait, tr.inputs, i, i + 1, j);
    assert tr.s.output[k] == Emission(Deadline(wait, tr.inputs, i, j - 1), Some(tr.inputs[j - 1].event));
  }

  lemma {:induction false} OutputFrom<E>(wait: Wait, tr: Trace<E>, k: nat)
    requires 0 < wait.min <= wait.max && Sound(wait, tr) && NoTies(wait, tr.inputs) && tr.s.open && k <= |tr.cuts|
    requires From(tr, k) <= |tr.inputs|
    ensures tr.s.output[k..] == Expected(wait, tr.inputs, From(tr, k), tr.now, tr.s.minTimer.None?)
    decreases |tr.cuts| - k
  {
    hide Emitted, NoTies, BurstEnd, Waiting, Expected, Ordered;
    if k == |tr.cuts| {
      NothingMore(wait, tr);
    } else {
      NextEmission(wait, tr, k);
      OutputFrom(wait, tr, k + 1);
      assert tr.s.output[k..] == [tr.s.output[k]] + tr.s.output[k + 1..];
    }
  }

  /** Without ties the output of every timed run is the one the reference computes from the inputs alone. */
  lemma OutputIsExpected<E>(wait: Wait, start: int, choices: seq<Choice<E>>)
    requires 0 < wait.min <= wait.max && Timed(wait, start, choices)
    requires var tr := Run(wait, start, choices); tr.s.open && NoTies(wait, tr.inputs)
    ensures var tr := Run(wait, start, choices);
            tr.s.output == Expected(wait, tr.inputs, 0, tr.now, tr.s.minTimer.None?)
  {
    hide Run, NoTies, Expected;
    RunSound(wait, start, choices);
    var tr := Run(wait, start, choices);
    OutputFrom(wait, tr, 0);
    assert tr.s.output[0..] == tr.s.output;
  }

  /** The goroutine, given the case each turn takes. */
  method Debounce<E>(wait: Wait, choices: seq<Choice<E>>) returns (output: seq<Emission<E>>)
    ensures forall start :: output == Run(wait, start, choices).s.output
  {
    var event: Option<E>, minTimer: Option<int>, maxTimer: Option<int> := None, None, None;
    output := [];
    var i := 0;
    while i < |choices|
      invariant 0 <= i <= |choices|
      invariant forall start :: Run(wait, start, choices[..i]).s == Loop(event, minTimer, maxTimer, output, true)
    {
      assert choices[..i + 1][..i] == choices[..i];
      match choices[i] {
        case Input(t, buffer) =>
          event := Some(buffer);
          minTimer := Some(t + wait.min);
          if maxTimer.None? {
            maxTimer := Some(t + wait.max);
          }
        case MinFires(t) =>
          minTimer, maxTimer := None, None;
          output := output + [Emission(t, event)];
        case MaxFires(t) =>
          minTimer, maxTimer := None, None;
          output := output + [Emission(t, event)];
        case InputCloses(_) =>
          forall start
            ensures Run(wait, start, choices).s.output == output
          {
            CloseIsFinal(wait, start, choices[..i + 1], choices[i + 1..]);
            assert choices[..i + 1] + choices[i + 1..] == choices;
          }
          return;
      }
      i := i + 1;
    }
    assert choices[..i] == choices;
  }
}
