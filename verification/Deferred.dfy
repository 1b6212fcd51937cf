/**
 Whole runs of callback lists, and jQuery.Deferred built from three of them
 (app/proconsul/WebContent/resources/jquery-1.12.0.js). A run is any interleaving of operations, whether made
 from outside or from inside a running callback, with the returns of the callbacks.
 */
module CallbackRuns {
  import opened Common
  import opened CallbackLists

  datatype Op<F, A> = AddOp(fns: seq<F>) | FireOp(args: A) | ReturnOp(isFalse: bool) | DisableOp | LockOp | EmptyOp

  function Apply<F(==), A>(o: Options, s: State<F, A>, op: Op<F, A>): (r: Outcome<F, A>)
    requires Valid(s)
    ensures Valid(r.s)
  {
    match op
    case AddOp(fns) => Added(o, s, fns)
    case FireOp(args) => FiredWith(o, s, args)
    case ReturnOp(isFalse) => if s.firing then AfterReturn(o, s, isFalse) else Outcome(s, None)
    case DisableOp => Outcome(Disabled(s), None)
    case LockOp => Outcome(Locked(s), None)
    case EmptyOp => Outcome(Emptied(s), None)
  }

  // ----- locking -----

  lemma {:induction false} SeekKeepsLock<F, A>(o: Options, s: State<F, A>)
    requires s.firing && s.index >= -1 && (s.memory.Some? || Length(s) <= s.index + 1)
    ensures Seek(o, s).s.locked == s.locked
    decreases |s.queue|, 2
  {
    if s.index + 1 >= Length(s) {
      NextRunKeepsLock(o, s.(index := -1));
    }
  }

  lemma {:induction false} NextRunKeepsLock<F, A>(o: Options, s: State<F, A>)
    requires s.firing && s.index >= -1 && (s.queue == [] ==> s.index == -1)
    ensures NextRun(o, s).s.locked == s.locked
    decreases |s.queue|, 1
  {
    if s.queue != [] {
      SeekKeepsLock(o, s.(memory := Some(s.queue[0]), queue := s.queue[1..]));
    }
  }

  /**
   Exactly when an operation unlocks a locked list: it adds to an idle list that may fire more than once and
   remembers its last arguments, because firing sets the lock from the option alone.
   */
  lemma LockLostIff<F, A>(o: Options, s: State<F, A>, op: Op<F, A>)
    requires Valid(s) && s.locked
    ensures !Apply(o, s, op).s.locked <==> op.AddOp? && !o.once && s.list.Some? && s.memory.Some? && !s.firing
  {
    match op
    case AddOp(fns) =>
      if s.list.Some? && s.memory.Some? && !s.firing {
        var list := Some(AddAll(o.unique, s.list.value, fns));
        NextRunKeepsLock(o, s.(index := |s.list.value| - 1, queue := s.queue + [s.memory.value], list := list,
                               locked := o.once, fired := true, firing := true));
      }
    case ReturnOp(isFalse) =>
      if s.firing {
        SeekKeepsLock(o, if isFalse && o.stopOnFalse then s.(index := Length(s), memory := None) else s);
      }
    case _ =>
  }

  lemma NextRunLast<F, A>(o: Options, s: State<F, A>)
    requires s.firing && s.index == -1 && s.queue == []
    ensures NextRun(o, s) == Outcome(Finish(o, s), None)
  {
  }

  /** The loop on a list whose queue is empty and whose memory is set and kept: one more call, or the end */
  lemma SeekLast<F, A>(o: Options, s: State<F, A>, args: A)
    requires o.memory && s.firing && s.index >= -1 && s.memory == Some(args) && s.queue == [] && s.list.Some?
    ensures var r := Seek(o, s);
            r == if s.index + 1 < |s.list.value|
                 then Outcome(s.(index := s.index + 1), Some(Call(s.list.value[s.index + 1], args)))
                 else Outcome(s.(index := -1, list := if s.locked then Some([]) else s.list, firing := false), None)
  {
    if s.index + 1 >= |s.list.value| {
      NextRunLast(o, s.(index := -1));
    }
  }

  // ----- disabling and locking, over whole runs -----

  /** The calls a list makes while the operations are done one after the other */
  function Calls<F(==), A>(o: Options, s: State<F, A>, ops: seq<Op<F, A>>): seq<Call<F, A>>
    requires Valid(s)
    decreases |ops|
  {
    if ops == [] then []
    else
      var r := Apply(o, s, ops[0]);
      (if r.call.Some? then [r.call.value] else []) + Calls(o, r.s, ops[1..])
  }

  predicate Spent<F, A>(s: State<F, A>) {
    Valid(s) && s.list.None? && s.memory.None? && s.locked && s.queue == []
  }

  lemma SpentStays<F, A>(o: Options, s: State<F, A>, op: Op<F, A>)
    requires Spent(s)
    ensures var r := Apply(o, s, op); Spent(r.s) && r.call.None?
  {
    if op.ReturnOp? && s.firing {
      NextRunLast(o, s.(index := -1));
      NextRunLast(o, s.(index := -1, memory := None));
    }
  }

  /** With any options and in any state, a disabled list never makes a call again, whatever is done to it. */
  lemma {:induction false} SpentForGood<F, A>(o: Options, s: State<F, A>, ops: seq<Op<F, A>>)
    requires Spent(s)
    ensures Calls(o, s, ops) == []
    decreases |ops|
  {
    if ops != [] {
      SpentStays(o, s, ops[0]);
      SpentForGood(o, Apply(o, s, ops[0]).s, ops[1..]);
    }
  }

  lemma DisabledForGood<F, A>(o: Options, s: State<F, A>, ops: seq<Op<F, A>>)
    requires Valid(s)
    ensures Calls(o, Disabled(s), ops) == []
  {
    SpentForGood(o, Disabled(s), ops);
  }

  function Returns<F, A>(values: seq<bool>): (ops: seq<Op<F, A>>)
    ensures |ops| == |values|
  {
    if values == [] then [] else [ReturnOp(values[0])] + Returns(values[1..])
  }

  /** The lock is looked at only when a run is over. */
  lemma {:induction false} SeekUnderLock<F, A>(o: Options, s: State<F, A>)
    requires s.firing && s.index >= -1 && (s.memory.Some? || Length(s) <= s.index + 1)
    ensures var r, r' := Seek(o, s), Seek(o, s.(locked := true));
            && r.call == r'.call && (r.call.Some? ==> r'.s == r.s.(locked := true))
                && (r.call.None? ==> !r.s.firing && !r'.s.firing)
    decreases |s.queue|, 2
  {
    if s.index + 1 >= Length(s) {
      NextRunUnderLock(o, s.(index := -1));
    }
  }

  lemma {:induction false} NextRunUnderLock<F, A>(o: Options, s: State<F, A>)
    requires s.firing && s.index >= -1 && (s.queue == [] ==> s.index == -1)
    ensures var r, r' := NextRun(o, s), NextRun(o, s.(locked := true));
            && r.call == r'.call && (r.call.Some? ==> r'.s == r.s.(locked := true))
                && (r.call.None? ==> !r.s.firing && !r'.s.firing)
    decreases |s.queue|, 1
  {
    if s.queue != [] {
      SeekUnderLock(o, s.(memory := Some(s.queue[0]), queue := s.queue[1..]));
    }
  }

  lemma {:induction false} IdleReturns<F, A>(o: Options, s: State<F, A>, values: seq<bool>)
    requires Valid(s) && !s.firing
    ensures Calls(o, s, Returns(values)) == []
    decreases |values|
  {
    if values != [] {
      assert Returns<F, A>(values)[1..] == Returns(values[1..]);
      IdleReturns(o, s, values[1..]);
    }
  }

  lemma {:induction false} ReturnsUnderLock<F, A>(o: Options, s: State<F, A>, values: seq<bool>)
    requires Valid(s)
    ensures Calls(o, s.(locked := true), Returns(values)) == Calls(o, s, Returns(values))
    decreases |values|
  {
    if !s.firing {
      IdleReturns(o, s, values);
      IdleReturns(o, s.(locked := true), values);
    } else if values != [] {
      var op: Op<F, A> := ReturnOp(values[0]);
      assert Returns<F, A>(values)[1..] == Returns(values[1..]);
      SeekUnderLock(o, if values[0] && o.stopOnFalse then s.(index := Length(s), memory := None) else s);
      var r, r' := Apply(o, s, op), Apply(o, s.(locked := true), op);
      if r.call.Some? {
        ReturnsUnderLock(o, r.s, values[1..]);
      } else {
        IdleReturns(o, r.s, values[1..]);
        IdleReturns(o, r'.s, values[1..]);
      }
    }
  }

  lemma {:induction false} NothingRemembered<F, A>(o: Options, s: State<F, A>, values: seq<bool>)
    requires Valid(s) && s.memory.None?
    ensures Calls(o, s, Returns(values)) == []
    decreases |values|
  {
    if values != [] {
      assert Returns<F, A>(values)[1..] == Returns(values[1..]);
      if s.firing {
        NextRunLast(o, s.(index := -1));
      }
      NothingRemembered(o, Apply(o, s, ReturnOp(values[0])).s, values[1..]);
    }
  }

  /**
   Locking aborts nothing, although its comment says that it aborts pending executions: in every state the
   calls that follow as the callbacks return, queued fires included, are the ones that would have followed.
   */
  lemma LockAbortsNothing<F, A>(o: Options, s: State<F, A>, values: seq<bool>)
    requires Valid(s)
    ensures Calls(o, Locked(s), Returns(values)) == Calls(o, s, Returns(values))
  {
    if s.memory.Some? {
      ReturnsUnderLock(o, s, values);
    } else {
      DisabledForGood(o, s, Returns(values));
      NothingRemembered(o, s, values);
    }
  }

  // ----- the order of calls -----

  function Functions<F, A>(s: State<F, A>): seq<F> {
    if s.list.Some? then s.list.value else []
  }

  /** Every function once, with these arguments */
  function Round<F, A>(fns: seq<F>, args: A): (r: seq<Call<F, A>>)
    ensures |r| == |fns|
  {
    if fns == [] then [] else [Call(fns[0], args)] + Round(fns[1..], args)
  }

  function Rounds<F, A>(fns: seq<F>, queue: seq<A>): seq<Call<F, A>> {
    if queue == [] then [] else Round(fns, queue[0]) + Rounds(fns, queue[1..])
  }

  /** The calls a list has still to make: the rest of this round, then a whole round for each queued fire, in order */
  function Owed<F, A>(s: State<F, A>): seq<Call<F, A>>
    requires s.index >= -1
  {
    if !s.firing then []
    else
      (if s.memory.Some? then Round(Pending(Functions(s), s.index), s.memory.value) else []) +
      Rounds(Functions(s), s.queue)
  }

  function Made<F, A>(r: Outcome<F, A>): seq<Call<F, A>> {
    if r.call.Some? then [r.call.value] else []
  }

  lemma PendingFirst<F, A>(fns: seq<F>, index: int, args: A)
    requires index >= -1
    ensures index + 1 < |fns| ==>
              Round(Pending(fns, index), args) == [Call(fns[index + 1], args)] + Round(Pending(fns, index + 1), args)
    ensures index + 1 >= |fns| ==> Round(Pending(fns, index), args) == []
    ensures Pending(fns, -1) == fns
  {
    if index + 1 < |fns| {
      assert fns[index + 1..][1..] == Pending(fns, index + 1);
    }
  }

  lemma RoundsFirst<F, A>(fns: seq<F>, queue: seq<A>)
    ensures Rounds(fns, queue) ==
            if queue == [] then [] else Round(Pending(fns, -1), queue[0]) + Rounds(fns, queue[1..])
  {
    if queue != [] {
      PendingFirst(fns, -1, queue[0]);
    }
  }

  lemma Assoc<F, A>(a: seq<Call<F, A>>, b: seq<Call<F, A>>, c: seq<Call<F, A>>)
    ensures a + (b + c) == a + b + c
  {
  }

  lemma {:induction false} SeekOwes<F, A>(o: Options, s: State<F, A>)
    requires s.firing && s.index >= -1 && (s.memory.Some? || Length(s) <= s.index + 1)
    ensures var r := Seek(o, s); Made(r) + Owed(r.s) == Owed(s)
    decreases |s.queue|, 2
  {
    hide Round, Rounds, Pending;
    if s.memory.Some? {
      PendingFirst(Functions(s), s.index, s.memory.value);
    }
    if s.index + 1 < Length(s) {
      var rest := Rounds(Functions(s), s.queue);
      var later := Round(Pending(Functions(s), s.index + 1), s.memory.value);
      var call := Call(s.list.value[s.index + 1], s.memory.value);
      Assoc([call], later, rest);
    } else {
      NextRunOwes(o, s.(index := -1));
      RoundsFirst(Functions(s), s.queue);
    }
  }

  lemma {:induction false} NextRunOwes<F, A>(o: Options, s: State<F, A>)
    requires s.firing && s.index >= -1 && (s.queue == [] ==> s.index == -1)
    ensures var r := NextRun(o, s);
            Made(r) + Owed(r.s) ==
            if s.queue == [] then []
            else Round(Pending(Functions(s), s.index), s.queue[0]) + Rounds(Functions(s), s.queue[1..])
    decreases |s.queue|, 1
  {
    if s.queue != [] {
      SeekOwes(o, s.(memory := Some(s.queue[0]), queue := s.queue[1..]));
    }
  }

  lemma {:induction false} RoundsMore<F, A>(fns: seq<F>, queue: seq<A>, args: A)
    ensures Rounds(fns, queue + [args]) == Rounds(fns, queue) + Round(fns, args)
  {
    if queue == [] {
      assert (queue + [args])[1..] == [];
    } else {
      assert (queue + [args])[1..] == queue[1..] + [args];
      RoundsMore(fns, queue[1..], args);
    }
  }

  lemma Appended<F, A>(a: seq<Call<F, A>>, b: seq<Call<F, A>>, c: seq<Call<F, A>>)
    ensures [] + (a + (b + c)) == a + b + c && a + [] == a && [] + a == a
  {
  }

  lemma QueuedOwes<F, A>(s: State<F, A>, args: A)
    requires s.firing && s.index >= -1
    ensures [] + Owed(s.(queue := s.queue + [args])) == Owed(s) + Round(Functions(s), args)
  {
    hide Round, Rounds, Pending;
    RoundsMore(Functions(s), s.queue, args);
    var now := if s.memory.Some? then Round(Pending(Functions(s), s.index), s.memory.value) else [];
    Appended(now, Rounds(Functions(s), s.queue), Round(Functions(s), args));
  }

  lemma IdleFireOwes<F, A>(o: Options, s: State<F, A>, args: A)
    requires Valid(s) && !s.firing && !s.locked
    ensures var r := FiredWith(o, s, args); Made(r) + Owed(r.s) == Round(Functions(s), args)
  {
    hide Round, Rounds, Pending, NextRun, Owed;
    var s' := s.(queue := [args], locked := o.once, fired := true, firing := true);
    assert s.queue + [args] == [args] && s'.queue[1..] == [];
    NextRunOwes(o, s');
    RoundsFirst<F, A>(Functions(s), []);
    PendingFirst(Functions(s), -1, args);
    Appended(Round(Functions(s), args), [], []);
  }

  lemma IdleOwesNothing<F, A>(s: State<F, A>)
    requires Valid(s) && !s.firing
    ensures Owed(s) == []
  {
  }

  /** Firing owes one round more, after everything owed before, unless the list is locked. */
  lemma FireOwes<F, A>(o: Options, s: State<F, A>, args: A)
    requires Valid(s)
    ensures var r := Apply(o, s, FireOp(args));
            Made(r) + Owed(r.s) == Owed(s) + if s.locked then [] else Round(Functions(s), args)
  {
    hide Round, Owed, Started;
    Appended(Owed(s), [], []);
    if !s.firing {
      IdleOwesNothing(s);
      Appended(Round(Functions(s), args), [], []);
    }
    if !s.locked {
      if s.firing {
        QueuedOwes(s, args);
      } else {
        IdleFireOwes(o, s, args);
      }
    }
  }

  /** Functions added to an idle list that remembers its arguments are owed one call each, with those arguments. */
  lemma LateAddOwes<F, A>(o: Options, s: State<F, A>, fns: seq<F>)
    requires Valid(s) && !s.firing && s.list.Some?
    ensures var r := Apply(o, s, AddOp(fns));
            Made(r) + Owed(r.s) ==
            if s.memory.None? then []
            else Round(Pending(AddAll(o.unique, s.list.value, fns), |s.list.value| - 1), s.memory.value)
  {
    hide Round, Rounds, Pending, NextRun, AddAll;
    if s.memory.Some? {
      var list := Some(AddAll(o.unique, s.list.value, fns));
      var s' := s.(index := |s.list.value| - 1, queue := [s.memory.value], list := list, locked := o.once,
                   fired := true, firing := true);
      assert s.queue + [s.memory.value] == [s.memory.value] && s'.queue[1..] == [];
      NextRunOwes(o, s');
      RoundsFirst<F, A>(Functions(s'), []);
    }
  }

  lemma {:induction false} NoRounds<F, A>(queue: seq<A>)
    ensures Rounds<F, A>([], queue) == []
  {
    if queue != [] {
      NoRounds<F, A>(queue[1..]);
    }
  }

  lemma ReturnOwes<F, A>(o: Options, s: State<F, A>, isFalse: bool)
    requires Valid(s)
    ensures var r := Apply(o, s, ReturnOp(isFalse));
            Made(r) + Owed(r.s) ==
            if s.firing && isFalse && o.stopOnFalse then Rounds(Functions(s), s.queue) else Owed(s)
  {
    hide Round, Rounds, Seek;
    if s.firing {
      SeekOwes(o, if isFalse && o.stopOnFalse then s.(index := Length(s), memory := None) else s);
    }
  }

  /** Nothing is owed without arguments, or without functions. */
  lemma NothingOwed<F, A>(s: State<F, A>)
    requires s.index >= -1 && Functions(s) == []
    ensures Owed(s) == []
  {
    NoRounds<F, A>(s.queue);
  }

  lemma LockOwes<F, A>(s: State<F, A>)
    requires Valid(s)
    ensures Owed(Locked(s)) == Owed(s)
  {
    hide Round;
    if s.memory.None? {
      NoRounds<F, A>([]);
    }
  }

  /**
   What a return, a lock, an empty or a disable does to the calls owed: a return makes the first of them, a return
   of false from a list that stops gives up the round, a lock gives up nothing, the others everything.
   */
  lemma OthersOwe<F, A>(o: Options, s: State<F, A>, op: Op<F, A>)
    requires Valid(s) && !op.AddOp? && !op.FireOp?
    ensures var r := Apply(o, s, op);
            Made(r) + Owed(r.s) ==
            match op
            case ReturnOp(isFalse) =>
              if s.firing && isFalse && o.stopOnFalse then Rounds(Functions(s), s.queue) else Owed(s)
            case LockOp => Owed(s)
            case _ => []
  {
    hide Owed, Rounds, AfterReturn;
    var r := Apply(o, s, op);
    match op {
      case ReturnOp(isFalse) =>
        ReturnOwes(o, s, isFalse);
      case LockOp =>
        LockOwes(s);
      case _ =>
        NothingOwed(r.s);
    }
  }

  /** As callbacks return, the calls owed are made, in their order, and no others. */
  lemma {:induction false} FiresInOrder<F, A>(o: Options, s: State<F, A>, values: seq<bool>)
    requires Valid(s) && (forall k :: 0 <= k < |values| ==> !(values[k] && o.stopOnFalse))
    ensures Calls(o, s, Returns(values)) == Owed(s)[..Min(|values|, |Owed(s)|)]
    decreases |values|
  {
    hide Seek, Owed;
    if values != [] {
      var op: Op<F, A> := ReturnOp(values[0]);
      var r := Apply(o, s, op);
      assert Returns<F, A>(values)[1..] == Returns(values[1..]);
      OthersOwe(o, s, op);
      FiresInOrder(o, r.s, values[1..]);
      if r.call.None? {
        IdleOwesNothing(r.s);
      }
    }
  }

  /** What a list remembers when it has run dry: the arguments of the last fire, if it remembers at all */
  function Remembered<F, A>(o: Options, s: State<F, A>): Option<A> {
    if !o.memory then None else if s.queue == [] then s.memory else Some(s.queue[|s.queue| - 1])
  }

  lemma {:induction false} SeekRemembers<F, A>(o: Options, s: State<F, A>)
    requires s.firing && s.index >= -1 && (s.memory.Some? || Length(s) <= s.index + 1)
    ensures var r := Seek(o, s); Remembered(o, r.s) == Remembered(o, s)
    ensures var r := Seek(o, s); r.call.None? ==> r.s.memory == Remembered(o, s)
    decreases |s.queue|, 2
  {
    if s.index + 1 >= Length(s) {
      NextRunRemembers(o, s.(index := -1));
    }
  }

  lemma {:induction false} NextRunRemembers<F, A>(o: Options, s: State<F, A>)
    requires s.firing && s.index >= -1 && (s.queue == [] ==> s.index == -1)
    ensures var r := NextRun(o, s); Remembered(o, r.s) == Remembered(o, s)
    ensures var r := NextRun(o, s); r.call.None? ==> r.s.memory == Remembered(o, s)
    decreases |s.queue|, 1
  {
    if s.queue != [] {
      SeekRemembers(o, s.(memory := Some(s.queue[0]), queue := s.queue[1..]));
    }
  }

  /** However many fires are queued, the last one made is the one that is remembered. */
  lemma LastFireRemembered<F, A>(o: Options, s: State<F, A>, args: A)
    requires Valid(s) && !s.locked
    ensures var r := Apply(o, s, FireOp(args));
            && Remembered(o, r.s) == (if o.memory then Some(args) else None)
            && (!r.s.firing ==> r.s.memory == Remembered(o, r.s))
  {
    if !s.firing {
      NextRunRemembers(o, s.(queue := s.queue + [args], locked := o.once, fired := true, firing := true));
    }
  }

  /** A list that may fire again and remembers, as the progress list of a Deferred */
  function Memory(): Options { Options(false, true, false, false) }

  lemma MemoryStarts<F, A>(s: State<F, A>, args: A)
    requires s.index == -1 && s.queue == [args] && s.list.Some?
    ensures var r := Started(Memory(), s);
            var s' := s.(queue := [], memory := Some(args), locked := false, fired := true);
            r == if s.list.value == [] then Outcome(s'.(firing := false), None)
                 else Outcome(s'.(index := 0, firing := true), Some(Call(s.list.value[0], args)))
  {
    hide Seek;
    assert s.queue[1..] == [];
    SeekLast(Memory(), s.(queue := [], memory := Some(args), locked := false, fired := true, firing := true), args);
  }

  /**
   A list that has fired, is locked, and is then added to fires again on the next fire: the lock is lost.
   */
  lemma LockedListFiresAgain<F, A>(f: F, x: A, y: A)
    ensures var s1 := Apply(Memory(), Fresh<F, A>(), FireOp(x)).s;
            var s2 := Apply(Memory(), s1, LockOp).s;
            var r3 := Apply(Memory(), s2, AddOp([f]));
            var s4 := Apply(Memory(), r3.s, ReturnOp(false)).s;
            var r5 := Apply(Memory(), s4, FireOp(y));
            s2.locked && r3.call == Some(Call(f, x)) && !s4.locked && r5.call == Some(Call(f, y))
  {
    hide Started, AddAll, Seek;
    var s0 := Fresh<F, A>();
    MemoryStarts(s0.(queue := [x]), x);
    assert s0.queue + [x] == [x];
    var s1 := State(Some([]), [], -1, Some(x), false, false, true);
    var s2 := s1.(locked := true);
    AddAllAppends([], [f]);
    assert [] + [f] == [f] && s2.queue + [x] == [x];
    MemoryStarts(s2.(queue := [x], list := Some([f])), x);
    var s3 := State(Some([f]), [], 0, Some(x), false, true, true);
    SeekLast(Memory(), s3, x);
    var s4 := s3.(index := -1, firing := false);
    assert s4.queue + [y] == [y];
    MemoryStarts(s4.(queue := [y]), y);
  }

  // ----- "once memory" lists -----

  function OnceMemory(): Options { Options(true, true, false, false) }

  /** A list with everything that was added to it, every fire it was asked for and every call it made */
  datatype History<F, A> = History(s: State<F, A>, added: seq<F>, fires: seq<A>, calls: seq<Call<F, A>>)

  function Begin<F, A>(): History<F, A> {
    History(Fresh(), [], [], [])
  }

  function Next<F(==), A>(o: Options, h: History<F, A>, op: Op<F, A>): History<F, A>
    requires Valid(h.s)
  {
    var r := Apply(o, h.s, op);
    History(r.s,
            if op.AddOp? && h.s.list.Some? then h.added + op.fns else h.added,
            if op.FireOp? then h.fires + [op.args] else h.fires,
            if r.call.Some? then h.calls + [r.call.value] else h.calls)
  }

  function Run<F(==), A>(o: Options, ops: seq<Op<F, A>>): (h: History<F, A>)
    ensures Valid(h.s)
  {
    if ops == [] then Begin() else Next(o, Run(o, ops[..|ops| - 1]), ops[|ops| - 1])
  }

  /** The operations a promise offers, and the returns */
  predicate Plain<F, A>(op: Op<F, A>) {
    op.AddOp? || op.FireOp? || op.ReturnOp?
  }

  /** The calls made so far are the first functions added, in order, all with the arguments of the first fire. */
  ghost predicate InOrder<F, A>(h: History<F, A>) {
    && |h.calls| <= |h.added|
    && (h.calls != [] ==> h.fires != [])
    && forall i :: 0 <= i < |h.calls| ==> h.calls[i] == Call(h.added[i], h.fires[0])
  }

  /** Not fired yet: the list is what was added. */
  ghost predicate Waiting<F, A>(h: History<F, A>) {
    h.s == State(Some(h.added), [], -1, None, false, false, false) && h.calls == [] && h.fires == []
  }

  /** Fired: one run over everything added, which may be waiting for a callback to return. */
  ghost predicate Settled<F, A>(h: History<F, A>) {
    && h.fires != [] && h.s.memory == Some(h.fires[0]) && h.s.locked && h.s.fired && h.s.queue == []
    && h.s.list.Some? && |h.s.list.value| <= |h.added| && h.added[|h.added| - |h.s.list.value|..] == h.s.list.value
    && (if h.s.firing then
          0 <= h.s.index < |h.s.list.value| && |h.calls| == |h.added| - |h.s.list.value| + h.s.index + 1
        else h.s.index == -1 && h.s.list.value == [] && |h.calls| == |h.added|)
  }

  ghost predicate OnceInv<F, A>(h: History<F, A>) {
    Valid(h.s) && (Waiting(h) || Settled(h)) && InOrder(h)
  }

  /** A fire from the start of a list: the first function is called, if there is one. */
  lemma StartOnce<F, A>(s: State<F, A>, args: A)
    requires s.index == -1 && s.queue == [args] && s.list.Some?
    ensures var r := Started(OnceMemory(), s);
            var s' := s.(queue := [], memory := Some(args), locked := true, fired := true);
            r == if s.list.value == [] then Outcome(s'.(list := Some([]), firing := false), None)
                 else Outcome(s'.(index := 0, firing := true), Some(Call(s.list.value[0], args)))
  {
    hide Seek;
    assert s.queue[1..] == [];
    SeekLast(OnceMemory(), s.(queue := [], memory := Some(args), locked := true, fired := true, firing := true), args);
  }

  /** Where the loop stops next */
  function Advanced<F, A>(h: History<F, A>): History<F, A>
    requires h.s.list.Some? && h.fires != []
  {
    if 0 <= |h.calls| < |h.added|
    then h.(s := h.s.(index := h.s.index + 1, firing := true), calls := h.calls +
        [Call(h.added[|h.calls|], h.fires[0])])
    else h.(s := h.s.(index := -1, list := Some([]), firing := false))
  }

  lemma AdvancedKeeps<F, A>(h: History<F, A>)
    requires InOrder(h) && h.fires != [] && h.s.memory == Some(h.fires[0]) && h.s.locked && h.s.fired && h.s.queue == []
    requires h.s.list.Some? && |h.s.list.value| <= |h.added|
            && h.added[|h.added| - |h.s.list.value|..] == h.s.list.value
    requires h.s.index >= -1 && |h.calls| == |h.added| - |h.s.list.value| + h.s.index + 1
    ensures var h' := Advanced(h); OnceInv(h') && Settled(h')
  {
  }

  lemma AddWaiting<F, A>(h: History<F, A>, fns: seq<F>)
    requires OnceInv(h) && (Waiting(h) || h.s.firing)
    ensures Next(OnceMemory(), h, AddOp(fns)) ==
            h.(s := h.s.(list := Some(h.s.list.value + fns)), added := h.added + fns)
  {
    hide AddAll;
    AddAllAppends(h.s.list.value, fns);
  }

  lemma AddSettled<F, A>(h: History<F, A>, fns: seq<F>)
    requires OnceInv(h) && Settled(h) && !h.s.firing
    ensures Next(OnceMemory(), h, AddOp(fns)) == Advanced(h.(s := h.s.(list := Some(fns)), added := h.added + fns))
  {
    hide Started, AddAll;
    AddAllAppends(h.s.list.value, fns);
    assert h.s.list.value + fns == fns;
    assert h.s.queue + [h.fires[0]] == [h.fires[0]];
    StartOnce(h.s.(queue := [h.fires[0]], list := Some(fns)), h.fires[0]);
    if fns != [] {
      assert (h.added + fns)[|h.added|] == fns[0];
    }
  }

  lemma FireWaiting<F, A>(h: History<F, A>, args: A)
    requires OnceInv(h) && Waiting(h)
    ensures Next(OnceMemory(), h, FireOp(args)) ==
            Advanced(h.(s := h.s.(memory := Some(args), locked := true, fired := true), fires := [args]))
  {
    hide Started;
    assert h.s.queue + [args] == [args];
    StartOnce(h.s.(queue := [args]), args);
  }

  lemma ReturnSettled<F, A>(h: History<F, A>, isFalse: bool)
    requires OnceInv(h) && Settled(h) && h.s.firing
    ensures Next(OnceMemory(), h, ReturnOp(isFalse)) == Advanced(h)
  {
    hide Seek;
    SeekLast(OnceMemory(), h.s, h.fires[0]);
    var list := h.s.list.value;
    if h.s.index + 1 < |list| {
      assert h.added[|h.added| - |list|..][h.s.index + 1] == h.added[|h.calls|];
    }
  }

  lemma AdvancedCalls<F, A>(h: History<F, A>)
    requires h.s.list.Some? && h.fires != []
    ensures var h' := Advanced(h);
            && |h'.calls| == (if |h.calls| < |h.added| then |h.calls| + 1 else |h.calls|)
            && h'.added == h.added && h'.fires == h.fires
  {
  }

  lemma OnceAdds<F, A>(h: History<F, A>, fns: seq<F>)
    requires OnceInv(h)
    ensures var h' := Next(OnceMemory(), h, AddOp(fns));
            && OnceInv(h') && |h'.calls| >= |h.calls| && h'.added == h.added + fns
            && (Waiting(h) ==> Waiting(h')) && (Settled(h) ==> Settled(h'))
  {
    hide Next;
    if Waiting(h) || h.s.firing {
      AddWaiting(h, fns);
    } else {
      hide Advanced;
      AddSettled(h, fns);
      AdvancedKeeps(h.(s := h.s.(list := Some(fns)), added := h.added + fns));
      AdvancedCalls(h.(s := h.s.(list := Some(fns)), added := h.added + fns));
    }
  }

  lemma OnceFires<F, A>(h: History<F, A>, args: A)
    requires OnceInv(h)
    ensures var h' := Next(OnceMemory(), h, FireOp(args));
            && OnceInv(h') && Settled(h') && h'.added == h.added
            && (Waiting(h) ==> |h'.calls| == if h.added == [] then 0 else 1) && (Settled(h) ==> h'.calls == h.calls)
  {
    if Waiting(h) {
      hide Advanced, Next;
      var fired := h.(s := h.s.(memory := Some(args), locked := true, fired := true), fires := [args]);
      FireWaiting(h, args);
      AdvancedKeeps(fired);
      AdvancedCalls(fired);
    } else {
      hide Started;
      assert Next(OnceMemory(), h, FireOp(args)) == h.(fires := h.fires + [args]);
    }
  }

  lemma OnceReturns<F, A>(h: History<F, A>, isFalse: bool)
    requires OnceInv(h)
    ensures var h' := Next(OnceMemory(), h, ReturnOp(isFalse));
            && OnceInv(h') && h'.added == h.added && (Waiting(h) ==> Waiting(h')) && (Settled(h) ==> Settled(h'))
            && |h'.calls| == if |h.calls| < |h.added| && h.s.firing then |h.calls| + 1 else |h.calls|
  {
    if h.s.firing {
      hide Advanced, Next;
      ReturnSettled(h, isFalse);
      AdvancedKeeps(h);
      AdvancedCalls(h);
    } else {
      assert Next(OnceMemory(), h, ReturnOp(isFalse)) == h;
    }
  }

  lemma OnceStep<F, A>(h: History<F, A>, op: Op<F, A>)
    requires OnceInv(h) && Plain(op)
    ensures OnceInv(Next(OnceMemory(), h, op))
  {
    match op
    case AddOp(fns) => OnceAdds(h, fns);
    case FireOp(args) => OnceFires(h, args);
    case ReturnOp(isFalse) => OnceReturns(h, isFalse);
  }

  /**
   In every run of a "once memory" list, with adds and fires made from anywhere, the calls are the added
   functions in order of addition with the first fire's arguments; each has been called exactly once
   whenever the list has fired and no callback is running.
   */
  lemma {:induction false} EachCalledOnce<F, A>(ops: seq<Op<F, A>>)
    requires forall i :: 0 <= i < |ops| ==> Plain(ops[i])
    ensures var h := Run(OnceMemory(), ops);
            && OnceInv(h) && InOrder(h)
            && (h.fires != [] && !h.s.firing ==> |h.calls| == |h.added|)
            && (h.fires == [] ==> h.calls == [])
  {
    if ops != [] {
      EachCalledOnce(ops[..|ops| - 1]);
      OnceStep(Run(OnceMemory(), ops[..|ops| - 1]), ops[|ops| - 1]);
    }
  }
}

module DeferredRuns {
  import opened Common
  import opened CallbackLists
  import opened CallbackRuns

  /** The first three functions of the done and fail lists are the Deferred's own. */
  datatype Fn = SetState | DisableOther | LockProgress | User(id: int)

  datatype Status = Pending | Resolved | Rejected

  datatype Target = Done | Fail | Progress

  datatype Deferred<A> = Deferred(done: History<Fn, A>, fail: History<Fn, A>, progress: History<Fn, A>, state: Status)

  datatype Event<A> = Add(to: Target, ids: seq<int>) | Fire(to: Target, args: A) | Return(to: Target, isFalse: bool)

  function OptionsOf(t: Target): Options {
    if t == Progress then Memory() else OnceMemory()
  }

  function Own(): (r: seq<Fn>)
    ensures |r| == 3 && r[0] == SetState && r[1] == DisableOther && r[2] == LockProgress
  {
    [SetState, DisableOther, LockProgress]
  }

  function New<A>(): Deferred<A> {
    var list := Next(OnceMemory(), Begin(), AddOp(Own()));
    Deferred(list, list, Begin(), Pending)
  }

  function Get<A>(d: Deferred<A>, t: Target): History<Fn, A> {
    match t
    case Done => d.done
    case Fail => d.fail
    case Progress => d.progress
  }

  function Set<A>(d: Deferred<A>, t: Target, h: History<Fn, A>): Deferred<A> {
    match t
    case Done => d.(done := h)
    case Fail => d.(fail := h)
    case Progress => d.(progress := h)
  }

  function Other(t: Target): Target {
    if t == Done then Fail else Done
  }

  function Final(t: Target): Status {
    if t == Done then Resolved else Rejected
  }

  function Users(ids: seq<int>): (fns: seq<Fn>)
    ensures |fns| == |ids| && forall i :: 0 <= i < |ids| ==> fns[i] == User(ids[i])
  {
    if ids == [] then [] else [User(ids[0])] + Users(ids[1..])
  }

  /** The callback of the list that is running now */
  function Running<A>(h: History<Fn, A>): Option<Fn> {
    if h.s.firing && h.calls != [] then Some(h.calls[|h.calls| - 1].fn) else None
  }

  predicate OwnRunning<A>(h: History<Fn, A>) {
    Running(h).Some? && !Running(h).value.User?
  }

  predicate AllValid<A>(d: Deferred<A>) {
    Valid(d.done.s) && Valid(d.fail.s) && Valid(d.progress.s)
  }

  /** What a function of the done or fail list does when it is the Deferred's own */
  function Effect<A>(d: Deferred<A>, t: Target, fn: Option<Fn>): (r: Deferred<A>)
    requires AllValid(d)
    ensures AllValid(r)
  {
    if fn == Some(SetState) then d.(state := Final(t))
    else if fn == Some(DisableOther) then Set(d, Other(t), Next(OnceMemory(), Get(d, Other(t)), DisableOp))
    else if fn == Some(LockProgress) then d.(progress := Next(OptionsOf(Progress), d.progress, LockOp))
    else d
  }

  function Op<A>(e: Event<A>): CallbackRuns.Op<Fn, A> {
    match e
    case Add(_, ids) => AddOp(Users(ids))
    case Fire(_, args) => FireOp(args)
    case Return(_, isFalse) => ReturnOp(isFalse)
  }

  /** User code runs only while none of the Deferred's own functions does. */
  predicate Enabled<A>(d: Deferred<A>, e: Event<A>) {
    if e.Return? && OwnRunning(Get(d, e.to)) then true else !OwnRunning(d.done) && !OwnRunning(d.fail)
  }

  function Step<A>(d: Deferred<A>, e: Event<A>): (r: Deferred<A>)
    requires AllValid(d)
    ensures AllValid(r)
  {
    if !Enabled(d, e) then d
    else
      var d' := if e.Return? && e.to != Progress then Effect(d, e.to, Running(Get(d, e.to))) else d;
      Set(d', e.to, Next(OptionsOf(e.to), Get(d', e.to), Op(e)))
  }

  function Run<A>(events: seq<Event<A>>): (d: Deferred<A>)
    ensures AllValid(d)
  {
    if events == [] then New() else Step(Run(events[..|events| - 1]), events[|events| - 1])
  }

  // ----- the invariant -----

  ghost predicate OwnFirst<A>(h: History<Fn, A>) {
    |h.added| >= 3 && h.added[..3] == Own() && forall i :: 3 <= i < |h.added| ==> h.added[i].User?
  }

  predicate Dead<A>(h: History<Fn, A>) {
    h.s.list.None? && h.s.memory.None? && h.s.locked && !h.s.firing && h.calls == []
  }

  /** Neither list has fired. */
  ghost predicate Open<A>(d: Deferred<A>) {
    OnceInv(d.done) && OnceInv(d.fail) && Waiting(d.done) && Waiting(d.fail) && d.state == Pending
  }

  /** List t has fired: its own functions come first, and the second of them has disabled the other list. */
  ghost predicate Fired<A>(d: Deferred<A>, t: Target) {
    var h, g := Get(d, t), Get(d, Other(t));
    && t != Progress && OnceInv(h) && Settled(h) && |h.calls| >= 1
    && (if |h.calls| < 3 then OnceInv(g) && Waiting(g) else Dead(g))
    && d.state == if |h.calls| == 1 then Pending else Final(t)
  }

  ghost predicate Inv<A>(d: Deferred<A>) {
    && AllValid(d) && OwnFirst(d.done) && OwnFirst(d.fail)
    && (Open(d) || Fired(d, Done) || Fired(d, Fail))
  }

  /** While a list is between its own functions, one of them is running. */
  lemma OwnRunningWhen<A>(h: History<Fn, A>)
    requires OnceInv(h) && OwnFirst(h) && Settled(h) && |h.calls| >= 1
    ensures h.s.firing || |h.calls| >= 3
    ensures h.s.firing && |h.calls| == 1 ==> Running(h) == Some(SetState)
    ensures h.s.firing && |h.calls| == 2 ==> Running(h) == Some(DisableOther)
    ensures h.s.firing && |h.calls| == 3 ==> Running(h) == Some(LockProgress)
    ensures h.s.firing && |h.calls| > 3 ==> Running(h).Some? && Running(h).value.User?
  {
    var last := |h.calls| - 1;
    assert h.calls[last] == Call(h.added[last], h.fires[0]);
    if last < 3 {
      assert h.added[..3][last] == h.added[last];
    }
  }

  lemma OwnFirstKept<A>(h: History<Fn, A>, h': History<Fn, A>, ids: seq<int>)
    requires OwnFirst(h) && (h'.added == h.added || h'.added == h.added + Users(ids))
    ensures OwnFirst(h')
  {
    assert h'.added[..3] == h.added[..3];
  }

  /** A disabled list never fires, calls or takes a function again. */
  lemma DeadStays<A>(h: History<Fn, A>, op: CallbackRuns.Op<Fn, A>)
    requires Dead(h) && Valid(h.s) && Plain(op)
    ensures var h' := Next(OnceMemory(), h, op); Dead(h') && h'.added == h.added
  {
  }

  lemma Dies<A>(h: History<Fn, A>)
    requires OnceInv(h) && Waiting(h)
    ensures var h' := Next(OnceMemory(), h, DisableOp); Dead(h') && h'.added == h.added
  {
  }

  /** What one operation does to a "once memory" list that has fired */
  lemma SettledKept<A>(h: History<Fn, A>, e: Event<A>)
    requires OnceInv(h) && Settled(h) && OwnFirst(h)
    ensures var h' := Next(OnceMemory(), h, Op(e));
            OnceInv(h') && Settled(h') && OwnFirst(h') && |h'.calls| >= |h.calls|
  {
    var h' := Next(OnceMemory(), h, Op(e));
    hide Next, OnceInv, Settled, OwnFirst;
    match e
    case Add(_, ids) =>
      OnceAdds(h, Users(ids));
      OwnFirstKept(h, h', ids);
    case Fire(_, args) =>
      OnceFires(h, args);
      OwnFirstKept(h, h', []);
    case Return(_, isFalse) =>
      OnceReturns(h, isFalse);
      OwnFirstKept(h, h', []);
  }

  lemma EnoughAdded<A>(h: History<Fn, A>)
    requires OwnFirst(h)
    ensures |h.added| >= 3
  {
  }

  lemma WaitingKept<A>(h: History<Fn, A>, e: Event<A>)
    requires OnceInv(h) && Waiting(h) && OwnFirst(h)
    ensures var h' := Next(OnceMemory(), h, Op(e));
            && OnceInv(h') && OwnFirst(h')
            && if e.Fire? then Settled(h') && |h'.calls| == 1 else Waiting(h')
  {
    var h' := Next(OnceMemory(), h, Op(e));
    EnoughAdded(h);
    hide Next, OnceInv, Settled, Waiting, OwnFirst;
    match e
    case Add(_, ids) =>
      OnceAdds(h, Users(ids));
      OwnFirstKept(h, h', ids);
    case Fire(_, args) =>
      OnceFires(h, args);
      OwnFirstKept(h, h', []);
    case Return(_, isFalse) =>
      OnceReturns(h, isFalse);
      OwnFirstKept(h, h', []);
  }

  lemma OpenStep<A>(d: Deferred<A>, e: Event<A>)
    requires Inv(d) && Open(d)
    ensures var d' := Step(d, e);
            Inv(d') && if e.Fire? && e.to != Progress then Fired(d', e.to) else Open(d')
  {
    hide Next, OnceInv, Settled, OwnFirst;
    if e.to != Progress {
      WaitingKept(Get(d, e.to), e);
    }
  }

  /** Between its own functions a fired Deferred can only go on with them. */
  lemma EarlyStep<A>(d: Deferred<A>, e: Event<A>, t: Target)
    requires Inv(d) && Fired(d, t) && |Get(d, t).calls| < 3
    ensures var d' := Step(d, e); Inv(d') && Fired(d', t) && |Get(d', t).calls| >= |Get(d, t).calls|
  {
    hide Next, OnceInv, Settled, OwnFirst;
    var h, g := Get(d, t), Get(d, Other(t));
    OwnRunningWhen(h);
    if e.Return? && e.to == t {
      OnceReturns(h, e.isFalse);
      EnoughAdded(h);
      OwnFirstKept(h, Next(OnceMemory(), h, ReturnOp(e.isFalse)), []);
      Dies(g);
      OwnFirstKept(g, Next(OnceMemory(), g, DisableOp), []);
    }
  }

  lemma LateOtherStep<A>(d: Deferred<A>, e: Event<A>, t: Target)
    requires Inv(d) && Fired(d, t) && |Get(d, t).calls| >= 3 && e.to == Other(t)
    ensures var d' := Step(d, e); Inv(d') && Fired(d', t) && Get(d', t) == Get(d, t)
  {
    hide Next, OnceInv, Settled, OwnFirst, Waiting;
    var g := Get(d, Other(t));
    DeadStays(g, Op(e));
    OwnFirstKept(g, Next(OnceMemory(), g, Op(e)), []);
  }

  lemma LateProgressStep<A>(d: Deferred<A>, e: Event<A>, t: Target)
    requires Inv(d) && Fired(d, t) && |Get(d, t).calls| >= 3 && e.to == Progress
    ensures var d' := Step(d, e); Inv(d') && Fired(d', t) && Get(d', t) == Get(d, t)
  {
    hide Next, OnceInv, Settled, OwnFirst, Waiting;
  }

  lemma LateOwnStep<A>(d: Deferred<A>, e: Event<A>, t: Target)
    requires Inv(d) && Fired(d, t) && |Get(d, t).calls| >= 3 && e.to == t
    ensures var d' := Step(d, e); Inv(d') && Fired(d', t) && |Get(d', t).calls| >= |Get(d, t).calls|
  {
    hide Next, OnceInv, Settled, OwnFirst, Waiting;
    var h := Get(d, t);
    OwnRunningWhen(h);
    SettledKept(h, e);
  }

  lemma LateStep<A>(d: Deferred<A>, e: Event<A>, t: Target)
    requires Inv(d) && Fired(d, t) && |Get(d, t).calls| >= 3
    ensures var d' := Step(d, e); Inv(d') && Fired(d', t) && |Get(d', t).calls| >= |Get(d, t).calls|
  {
    hide Inv, Step;
    if e.to == t {
      LateOwnStep(d, e, t);
    } else if e.to == Progress {
      LateProgressStep(d, e, t);
    } else {
      LateOtherStep(d, e, t);
    }
  }

  /** The list that fires first keeps having fired, and the other never does: a Deferred settles at most once. */
  lemma FiredStep<A>(d: Deferred<A>, e: Event<A>, t: Target)
    requires Inv(d) && Fired(d, t)
    ensures var d' := Step(d, e); Inv(d') && Fired(d', t) && (d.state != Pending ==> d'.state == d.state)
  {
    hide Inv, Step;
    if |Get(d, t).calls| < 3 {
      EarlyStep(d, e, t);
    } else {
      LateStep(d, e, t);
    }
  }

  lemma NewHolds<A>()
    ensures Inv(New<A>()) && Open(New<A>())
  {
    var b := Begin<Fn, A>();
    OnceAdds(b, Own());
  }

  lemma InvStep<A>(d: Deferred<A>, e: Event<A>)
    requires Inv(d)
    ensures var d' := Step(d, e); Inv(d') && (d.state != Pending ==> d'.state == d.state)
  {
    hide Step, Fired;
    if Open(d) {
      OpenStep(d, e);
    } else if Fired(d, Done) {
      FiredStep(d, e, Done);
    } else {
      FiredStep(d, e, Fail);
    }
  }

  lemma {:induction false} InvHolds<A>(events: seq<Event<A>>)
    ensures Inv(Run(events))
  {
    hide Inv, Open, Fired, Step, New;
    if events == [] {
      NewHolds<A>();
    } else {
      var d, e := Run(events[..|events| - 1]), events[|events| - 1];
      InvHolds(events[..|events| - 1]);
      InvStep(d, e);
    }
  }

  // ----- what a Deferred promises -----

  /** In no run are both a done function and a fail function called, and the state tells which may be. */
  lemma NeverBoth<A>(events: seq<Event<A>>)
    ensures var d := Run(events);
            && (d.done.calls == [] || d.fail.calls == [])
            && (|d.done.calls| > 3 ==> d.state == Resolved) && (|d.fail.calls| > 3 ==> d.state == Rejected)
            && (d.state == Resolved ==> d.fail.calls == []) && (d.state == Rejected ==> d.done.calls == [])
  {
    hide Run;
    InvHolds(events);
  }

  /**
   In every run the done functions called so far are the first ones added, in order of addition, all with
   the arguments of the first resolve, and all of them have been called once the Deferred is resolved and no
   done callback is running. The same holds for fail and reject.
   */
  lemma SettledCallsAll<A>(events: seq<Event<A>>, t: Target)
    requires t != Progress
    ensures var d := Run(events);
            var h := Get(d, t);
            InOrder(h) && (d.state == Final(t) && !h.s.firing ==> |h.calls| == |h.added|)
  {
    hide Run;
    InvHolds(events);
    var d := Run(events);
    hide OwnFirst;
  }

  /** Once settled, the state is the same for the rest of the run. */
  lemma {:induction false} SettlesOnce<A>(events: seq<Event<A>>, more: seq<Event<A>>)
    ensures Run(events).state != Pending ==> Run(events + more).state == Run(events).state
    decreases |more|
  {
    hide Inv, Step, New;
    if more == [] {
      assert events + more == events;
    } else {
      var before := more[..|more| - 1];
      SettlesOnce(events, before);
      assert (events + more)[..|events + more| - 1] == events + before;
      InvHolds(events + before);
      InvStep(Run(events + before), more[|more| - 1]);
    }
  }

  lemma NotBothCalled<A>(d: Deferred<A>, t: Target)
    requires Fired(d, t)
    ensures Get(d, Other(t)).calls == []
  {
  }

  /** Whichever of resolve and reject comes first decides, whatever follows. */
  lemma {:induction false} FirstDecides<A>(events: seq<Event<A>>, e: Event<A>, more: seq<Event<A>>)
    requires e.Fire? && e.to != Progress && Open(Run(events))
    ensures var d := Run(events + [e] + more);
            && Fired(d, e.to) && Get(d, Other(e.to)).calls == [] && (d.state == Pending || d.state == Final(e.to))
    decreases |more|
  {
    hide Inv, Step, New, Open, OnceInv, Settled;
    var all := events + [e] + more;
    if more == [] {
      assert all[..|all| - 1] == events;
      InvHolds(events);
      OpenStep(Run(events), e);
    } else {
      var before := more[..|more| - 1];
      FirstDecides(events, e, before);
      assert all[..|all| - 1] == events + [e] + before;
      InvHolds(events + [e] + before);
      FiredStep(Run(events + [e] + before), more[|more| - 1], e.to);
    }
    NotBothCalled(Run(all), e.to);
  }

  /**
   Exactly when a locked progress list is unlocked again: a function is added after some notify, from outside
   its callbacks.
   */
  lemma ProgressUnlockedIff<A>(d: Deferred<A>, e: Event<A>)
    requires AllValid(d) && d.progress.s.locked
    ensures !Step(d, e).progress.s.locked <==>
            && Enabled(d, e) && e.Add? && e.to == Progress
            && d.progress.s.list.Some? && d.progress.s.memory.Some? && !d.progress.s.firing
  {
    hide Apply;
    if Enabled(d, e) {
      if e.to == Progress {
        LockLostIff(OptionsOf(Progress), d.progress.s, Op(e));
      } else if e.Return? {
        LockLostIff(OptionsOf(Progress), d.progress.s, LockOp);
      }
    }
  }
}
