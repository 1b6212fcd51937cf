/**
 jQuery.Callbacks (app/proconsul/WebContent/resources/jquery-1.12.0.js). A callback may itself add, fire, lock,
 disable, empty or remove, so firing is cut at each invocation: an operation either ends, or hands a callback
 to the environment, which does what it likes with the list and then lets the loop go on with Returned.
 */
module CallbackLists {
  import opened Common

  datatype Options = Options(once: bool, memory: bool, unique: bool, stopOnFalse: bool)

  /** The list is None when it is the empty string: spent or disabled. The memory is None when it is false. */
  datatype State<F, A> = State(list: Option<seq<F>>, queue: seq<A>, index: int, memory: Option<A>,
                               locked: bool, firing: bool, fired: bool)

  datatype Call<F, A> = Call(fn: F, args: A)

  /** What an operation leaves: the state, and the callback now running if the loop has stopped at one */
  datatype Outcome<F, A> = Outcome(s: State<F, A>, call: Option<Call<F, A>>)

  function Fresh<F, A>(): State<F, A> {
    State(Some([]), [], -1, None, false, false, false)
  }

  function Length<F, A>(s: State<F, A>): nat {
    if s.list.Some? then |s.list.value| else 0
  }

  /**
   The loop index never points before the list, nothing is queued while idle, and a running loop has its
   arguments.
   */
  predicate Valid<F, A>(s: State<F, A>) {
    && s.index >= -1
    && (s.firing ==> s.memory.Some? || (s.list.None? && s.queue == [] && s.locked))
    && (!s.firing ==> s.queue == [] && s.index == -1)
  }

  // ----- the loop -----

  /** Forget what is no longer needed when the queue has run dry. */
  function Finish<F, A>(o: Options, s: State<F, A>): State<F, A> {
    var memory := if o.memory then s.memory else None;
    var list := if !s.locked then s.list else if memory.Some? then Some([]) else None;
    s.(list := list, memory := memory, firing := false)
  }

  /** The inner loop: on to the next callback, or to the next queued run */
  function Seek<F, A>(o: Options, s: State<F, A>): (r: Outcome<F, A>)
    requires s.firing && s.index >= -1 && (s.memory.Some? || Length(s) <= s.index + 1)
    ensures Valid(r.s) && (r.call.Some? <==> r.s.firing)
    decreases |s.queue|, 2
  {
    if s.index + 1 < Length(s) then
      Outcome(s.(index := s.index + 1), Some(Call(s.list.value[s.index + 1], s.memory.value)))
    else NextRun(o, s.(index := -1))
  }

  /** The outer loop */
  function NextRun<F, A>(o: Options, s: State<F, A>): (r: Outcome<F, A>)
    requires s.firing && s.index >= -1 && (s.queue == [] ==> s.index == -1)
    ensures Valid(r.s) && (r.call.Some? <==> r.s.firing)
    decreases |s.queue|, 1
  {
    if s.queue == [] then Outcome(Finish(o, s), None)
    else Seek(o, s.(memory := Some(s.queue[0]), queue := s.queue[1..]))
  }

  function Started<F, A>(o: Options, s: State<F, A>): (r: Outcome<F, A>)
    requires s.index >= -1 && s.queue != []
    ensures Valid(r.s) && (r.call.Some? <==> r.s.firing)
  {
    NextRun(o, s.(locked := o.once, fired := true, firing := true))
  }

  /** The running callback returns. */
  function AfterReturn<F, A>(o: Options, s: State<F, A>, isFalse: bool): (r: Outcome<F, A>)
    requires Valid(s) && s.firing
    ensures Valid(r.s) && (r.call.Some? <==> r.s.firing)
  {
    if isFalse && o.stopOnFalse then Seek(o, s.(index := Length(s), memory := None)) else Seek(o, s)
  }

  // ----- the operations -----

  function AddAll<F(==)>(unique: bool, list: seq<F>, fns: seq<F>): seq<F>
    decreases |fns|
  {
    if fns == [] then list
    else AddAll(unique, if unique && fns[0] in list then list else list + [fns[0]], fns[1..])
  }

  lemma {:induction false} AddAllAppends<F>(list: seq<F>, fns: seq<F>)
    ensures AddAll(false, list, fns) == list + fns
    decreases |fns|
  {
    if fns != [] {
      AddAllAppends(list + [fns[0]], fns[1..]);
      assert list + fns == list + [fns[0]] + fns[1..];
    } else {
      assert list + fns == list;
    }
  }

  /** A list that was kept free of duplicates stays so, and holds what it held and what was added. */
  lemma {:induction false} AddAllUnique<F>(list: seq<F>, fns: seq<F>)
    requires forall i, j :: 0 <= i < j < |list| ==> list[i] != list[j]
    ensures var r := AddAll(true, list, fns);
            && |list| <= |r| && r[..|list|] == list
            && (forall i, j :: 0 <= i < j < |r| ==> r[i] != r[j])
            && (forall f :: f in r <==> f in list || f in fns)
    decreases |fns|
  {
    if fns != [] {
      var next := if fns[0] in list then list else list + [fns[0]];
      AddAllUnique(next, fns[1..]);
      var r := AddAll(true, next, fns[1..]);
      assert r[..|list|] == r[..|next|][..|list|];
      assert fns == [fns[0]] + fns[1..];
      assert forall f :: f in next <==> f in list || f == fns[0];
    }
  }

  function Added<F(==), A>(o: Options, s: State<F, A>, fns: seq<F>): (r: Outcome<F, A>)
    requires Valid(s)
    ensures Valid(r.s) && (s.firing ==> r.s.firing && r.call.None?) && (!s.firing ==> (r.call.Some? <==> r.s.firing))
  {
    if s.list.None? then Outcome(s, None)
    else
      var list := Some(AddAll(o.unique, s.list.value, fns));
      if s.memory.Some? && !s.firing then
        Started(o, s.(index := |s.list.value| - 1, queue := s.queue + [s.memory.value], list := list))
      else
        Outcome(s.(list := list), None)
  }

  function FiredWith<F, A>(o: Options, s: State<F, A>, args: A): (r: Outcome<F, A>)
    requires Valid(s)
    ensures Valid(r.s) && (s.firing ==> r.s.firing && r.call.None?) && (!s.firing ==> (r.call.Some? <==> r.s.firing))
  {
    if s.locked then Outcome(s, None)
    else
      var s' := s.(queue := s.queue + [args]);
      if s.firing then Outcome(s', None) else Started(o, s')
  }

  function Disabled<F, A>(s: State<F, A>): (r: State<F, A>)
    requires Valid(s)
    ensures Valid(r)
  {
    s.(locked := true, queue := [], list := None, memory := None)
  }

  function Locked<F, A>(s: State<F, A>): (r: State<F, A>)
    requires Valid(s)
    ensures Valid(r)
  {
    if s.memory.Some? then s.(locked := true) else Disabled(s)
  }

  function Emptied<F, A>(s: State<F, A>): (r: State<F, A>)
    requires Valid(s)
    ensures Valid(r)
  {
    if s.list.Some? then s.(list := Some([])) else s
  }

  function Without<F(==)>(list: seq<F>, fn: F): seq<F> {
    if list == [] then [] else (if list[0] == fn then [] else [list[0]]) + Without(list[1..], fn)
  }

  lemma {:induction false} WithoutJoin<F>(a: seq<F>, b: seq<F>, fn: F)
    ensures Without(a + b, fn) == Without(a, fn) + Without(b, fn)
  {
    if a == [] {
      assert a + b == b;
    } else {
      assert (a + b)[1..] == a[1..] + b;
      WithoutJoin(a[1..], b, fn);
    }
  }

  lemma {:induction false} WithoutNone<F>(a: seq<F>, fn: F)
    requires fn !in a
    ensures Without(a, fn) == a
  {
    if a != [] {
      WithoutNone(a[1..], fn);
    }
  }

  /** The callbacks the running loop has still to call */
  function Pending<F>(list: seq<F>, index: int): seq<F>
    requires index >= -1
  {
    if index + 1 < |list| then list[index + 1..] else []
  }

  lemma DropOne<F>(a: seq<F>, b: seq<F>, fn: F)
    ensures Without(a + [fn] + b, fn) == Without(a + b, fn)
  {
    WithoutJoin(a + [fn], b, fn);
    WithoutJoin(a, [fn], fn);
    WithoutJoin(a, b, fn);
    assert Without([fn], fn) == [];
  }

  /** One splice of remove, with the index moved along */
  lemma SpliceKeeps<F>(list: seq<F>, at: nat, index: int, fn: F)
    requires at < |list| && list[at] == fn && index >= -1
    ensures var list' := list[..at] + list[at + 1..];
            var index' := if at <= index then index - 1 else index;
            && Without(list', fn) == Without(list, fn)
            && Without(Pending(list', index'), fn) == Without(Pending(list, index), fn)
  {
    var list' := list[..at] + list[at + 1..];
    DropOne(list[..at], list[at + 1..], fn);
    assert list == list[..at] + [fn] + list[at + 1..];
    if at > index {
      var front := list[index + 1..at];
      DropOne(front, list[at + 1..], fn);
      assert Pending(list, index) == front + [fn] + list[at + 1..];
      assert Pending(list', index) == front + list[at + 1..];
    } else {
      assert Pending(list', index - 1) == Pending(list, index);
    }
  }

  class Callbacks<F(==), A> {
    const options: Options
    var list: Option<seq<F>>
    var queue: seq<A>
    var firingIndex: int
    var memory: Option<A>
    var locked: bool
    var firing: bool
    var fired: bool

    function Now(): State<F, A>
      reads this
    {
      State(list, queue, firingIndex, memory, locked, firing, fired)
    }

    constructor (options: Options)
      ensures this.options == options && Now() == Fresh() && Valid(Now())
    {
      this.options := options;
      list, queue, firingIndex, memory := Some([]), [], -1, None;
      locked, firing, fired := false, false, false;
    }

    /** The two loops of fire, up to the next callback; `inside` when a callback has just returned */
    method Loop(inside: bool) returns (call: Option<Call<F, A>>)
      requires firing && firingIndex >= -1
      requires inside ==> memory.Some? || Length(Now()) <= firingIndex + 1
      requires !inside && queue == [] ==> firingIndex == -1
      modifies this
      ensures Outcome(Now(), call) == if inside then Seek(options, old(Now())) else NextRun(options, old(Now()))
    {
      var turning := inside;
      while true
        invariant firing && firingIndex >= -1
        invariant turning ==> memory.Some? || Length(Now()) <= firingIndex + 1
        invariant !turning && queue == [] ==> firingIndex == -1
        invariant (if turning then Seek(options, Now()) else NextRun(options, Now())) ==
                  if inside then Seek(options, old(Now())) else NextRun(options, old(Now()))
        decreases |queue|, turning
      {
        if turning {
          if firingIndex + 1 < (if list.Some? then |list.value| else 0) {
            firingIndex := firingIndex + 1;
            return Some(Call(list.value[firingIndex], memory.value));
          }
          firingIndex := -1;
          turning := false;
        } else if queue != [] {
          memory, queue := Some(queue[0]), queue[1..];
          turning := true;
        } else {
          break;
        }
      }
      if !options.memory { memory := None; }
      firing := false;
      if locked {
        if memory.Some? { list := Some([]); } else { list := None; }
      }
      call := None;
    }

    method Fire() returns (call: Option<Call<F, A>>)
      requires firingIndex >= -1 && queue != []
      modifies this
      ensures Outcome(Now(), call) == Started(options, old(Now()))
    {
      locked, fired, firing := options.once, true, true;
      call := Loop(false);
    }

    method Returned(isFalse: bool) returns (call: Option<Call<F, A>>)
      requires Valid(Now()) && firing
      modifies this
      ensures Outcome(Now(), call) == AfterReturn(options, old(Now()), isFalse)
    {
      if isFalse && options.stopOnFalse {
        firingIndex := if list.Some? then |list.value| else 0;
        memory := None;
      }
      call := Loop(true);
    }

    method Add(fns: seq<F>) returns (call: Option<Call<F, A>>)
      requires Valid(Now())
      modifies this
      ensures Outcome(Now(), call) == Added(options, old(Now()), fns)
    {
      call := None;
      if list.Some? {
        if memory.Some? && !firing {
          firingIndex := |list.value| - 1;
          queue := queue + [memory.value];
        }
        var all, i := list.value, 0;
        while i < |fns|
          invariant 0 <= i <= |fns|
          invariant AddAll(options.unique, all, fns[i..]) == AddAll(options.unique, old(list.value), fns)
        {
          assert fns[i..][1..] == fns[i + 1..];
          if !options.unique || fns[i] !in all {
            all := all + [fns[i]];
          }
          i := i + 1;
        }
        list := Some(all);
        if memory.Some? && !firing {
          call := Fire();
        }
      }
    }

    method FireWith(args: A) returns (call: Option<Call<F, A>>)
      requires Valid(Now())
      modifies this
      ensures Outcome(Now(), call) == FiredWith(options, old(Now()), args)
    {
      call := None;
      if !locked {
        queue := queue + [args];
        if !firing {
          call := Fire();
        }
      }
    }

    method Disable()
      requires Valid(Now())
      modifies this
      ensures Now() == Disabled(old(Now()))
    {
      locked, queue, list, memory := true, [], None, None;
    }

    method Lock()
      requires Valid(Now())
      modifies this
      ensures Now() == Locked(old(Now()))
    {
      locked := true;
      if memory.None? {
        Disable();
      }
    }

    method Empty()
      requires Valid(Now())
      modifies this
      ensures Now() == Emptied(old(Now()))
    {
      if list.Some? {
        list := Some([]);
      }
    }

    /**
     remove: every occurrence goes, and the loop index moves so that the callbacks still to be called are
     the same ones, in the same order, without the removed one.
     */
    method Remove(fn: F)
      requires Valid(Now())
      modifies this`list, this`firingIndex
      ensures Valid(Now()) && list.Some? == old(list.Some?)
      ensures list.Some? ==> list.value == Without(old(list.value), fn)
      ensures list.Some? ==> Pending(list.value, firingIndex) == Without(old(Pending(list.value, firingIndex)), fn)
    {
      hide Without;
      if list.None? {
        return;
      }
      var index := 0;
      ghost var all, pending := list.value, Pending(list.value, firingIndex);
      while index < |list.value|
        invariant list.Some? && Valid(Now()) && 0 <= index <= |list.value|
        invariant Without(list.value, fn) == Without(all, fn) && fn !in list.value[..index]
        invariant Without(Pending(list.value, firingIndex), fn) == Without(pending, fn)
        decreases |list.value| - index
      {
        if list.value[index] == fn {
          SpliceKeeps(list.value, index, firingIndex, fn);
          list := Some(list.value[..index] + list.value[index + 1..]);
          if index <= firingIndex {
            firingIndex := firingIndex - 1;
          }
        } else {
          index := index + 1;
        }
      }
      assert list.value[..index] == list.value;
      WithoutNone(Pending(list.value, firingIndex), fn);
      WithoutNone(list.value, fn);
    }
  }
}
