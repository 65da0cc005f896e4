/** The round-robin scheduler: a singly linked list of tasks that only ever grows at its head,
    and a cursor that returns to the head when it runs off the end. */
module TaskRing {

  /** `entries` newest first; `left` entries of the current pass are still to come, counted from
      the old end (0 when the cursor is NULL); `calls` is the trace of task calls. Tasks are
      addresses, 0 for NULL. */
  datatype Ring = Ring(entries: seq<nat>, left: nat, calls: seq<nat>)

  ghost predicate IsRing(r: Ring) { r.left <= |r.entries| }

  function Register(r: Ring, task: nat): Ring {
    if task == 0 then r else r.(entries := [task] + r.entries)
  }

  function RegisterAll(r: Ring, tasks: seq<nat>): (r': Ring)
    ensures r'.calls == r.calls && r'.left == r.left && |r.entries| <= |r'.entries|
    decreases |tasks|
  {
    if tasks == [] then r else RegisterAll(Register(r, tasks[0]), tasks[1..])
  }

  /** `older` is what was there before entries were added at the front. */
  ghost predicate Extends(older: seq<nat>, newer: seq<nat>) {
    |older| <= |newer| && newer[|newer| - |older|..] == older
  }

  lemma ExtendsRefl(a: seq<nat>)
    ensures Extends(a, a)
  {
  }

  lemma ExtendsTrans(a: seq<nat>, b: seq<nat>, c: seq<nat>)
    requires Extends(a, b) && Extends(b, c)
    ensures Extends(a, c)
  {
  }

  lemma {:induction false} RegisterAllExtends(r: Ring, tasks: seq<nat>)
    ensures Extends(r.entries, RegisterAll(r, tasks).entries)
    decreases |tasks|
  {
    if tasks != [] {
      RegisterAllExtends(Register(r, tasks[0]), tasks[1..]);
      ExtendsTrans(r.entries, Register(r, tasks[0]).entries, RegisterAll(r, tasks).entries);
    }
  }

  /** One call of the scheduler. `outside(n)` lists the tasks that the n-th task call registers. */
  function Step(r: Ring, outside: nat -> seq<nat>): (r': Ring)
    requires IsRing(r)
    ensures IsRing(r')
  {
    var left := if r.left == 0 then |r.entries| else r.left;
    if left == 0 then r
    else
      var called := r.(left := left, calls := r.calls + [r.entries[|r.entries| - left]]);
      RegisterAll(called, outside(|r.calls|)).(left := left - 1)
  }

  function Steps(r: Ring, n: nat, outside: nat -> seq<nat>): (r': Ring)
    requires IsRing(r)
    ensures IsRing(r')
    decreases n
  {
    if n == 0 then r else Steps(Step(r, outside), n - 1, outside)
  }

  class TaskState {
    const task: nat
    const next: TaskState?

    constructor (task: nat, next: TaskState?)
      ensures this.task == task && this.next == next
    {
      this.task := task;
      this.next := next;
    }
  }

  class TaskManager {
    var pHead: TaskState?
    var pCur: TaskState?
    var calls: seq<nat>
    ghost var nodes: seq<TaskState>
    ghost var entries: seq<nat>
    ghost var left: nat

    ghost predicate LinkValid(i: nat)
      reads this
    {
      && i < |nodes| && i < |entries|
      && nodes[i].task == entries[i]
      && nodes[i].next == (if i + 1 < |nodes| then nodes[i + 1] else null)
    }

    ghost predicate Valid()
      reads this
    {
      && |nodes| == |entries| && left <= |nodes|
      && (forall i :: 0 <= i < |nodes| ==> LinkValid(i))
      && pHead == (if nodes == [] then null else nodes[0])
      && pCur == (if left == 0 then null else nodes[|nodes| - left])
    }

    ghost function View(): Ring
      reads this
    {
      Ring(entries, left, calls)
    }

    constructor ()
      ensures Valid() && View() == Ring([], 0, [])
    {
      pHead, pCur := null, null;
      calls, nodes, entries, left := [], [], [], 0;
    }

    method RegisterTaskHandler(task: nat) returns (rc: int)
      requires Valid()
      modifies `pHead, `nodes, `entries
      ensures Valid() && View() == Register(old(View()), task)
      ensures rc == if task == 0 then -1 else 0
    {
      rc := -1;
      if task != 0 {
        pHead := new TaskState(task, pHead);
        nodes, entries := [pHead] + nodes, [task] + entries;
        forall i | 0 <= i < |nodes|
          ensures LinkValid(i)
        {
          assert i > 0 ==> old(LinkValid(i - 1));
        }
        rc := 0;
      }
    }

    /** Runs the task under the cursor, which may register further tasks. */
    method Call(registers: seq<nat>)
      requires Valid() && pCur != null
      modifies `calls, `pHead, `nodes, `entries
      ensures Valid()
      ensures View() == RegisterAll(old(View()).(calls := old(calls) + [old(entries)[|old(entries)| - left]]), registers)
    {
      assert LinkValid(|nodes| - left);
      calls := calls + [pCur.task];
      Kept();
      ghost var called := View();
      assert registers[0..] == registers;
      for k := 0 to |registers|
        invariant Valid()
        invariant RegisterAll(View(), registers[k..]) == RegisterAll(called, registers)
      {
        hide Valid;
        assert registers[k..][1..] == registers[k + 1..];
        var _ := RegisterTaskHandler(registers[k]);
      }
    }

    /** Only the list fields matter to its validity. */
    twostate lemma Kept()
      requires old(Valid())
      requires nodes == old(nodes) && entries == old(entries) && pHead == old(pHead)
      requires pCur == old(pCur) && left == old(left)
      ensures Valid()
    {
      forall i | 0 <= i < |nodes|
        ensures LinkValid(i)
      {
        assert old(LinkValid(i));
      }
    }

    /** Puts the cursor back to the head when the pass is over. */
    method Rewind()
      requires Valid()
      modifies `pCur, `left
      ensures Valid()
      ensures left == if old(left) == 0 then |entries| else old(left)
      ensures pCur == null <==> left == 0
    {
      if pCur == null {
        pCur := pHead;
        left := |nodes|;
      }
      forall i | 0 <= i < |nodes|
        ensures LinkValid(i)
      {
        assert old(LinkValid(i));
      }
    }

    method Loop(outside: nat -> seq<nat>)
      requires Valid()
      modifies this
      ensures Valid() && View() == Step(old(View()), outside)
    {
      Rewind();
      if pCur != null {
        Call(outside(|calls|));
        MoveOn();
      }
    }

    method MoveOn()
      requires Valid() && pCur != null
      modifies `pCur, `left
      ensures Valid() && left == old(left) - 1
    {
      assert LinkValid(|nodes| - left);
      pCur := pCur.next;
      left := left - 1;
      forall i | 0 <= i < |nodes|
        ensures LinkValid(i)
      {
        assert old(LinkValid(i));
      }
    }
  }

  // ---------- Fairness ----------

  lemma {:induction false} StepsCompose(r: Ring, m: nat, n: nat, outside: nat -> seq<nat>)
    requires IsRing(r)
    ensures Steps(r, m + n, outside) == Steps(Steps(r, m, outside), n, outside)
    decreases m
  {
    hide Step;
    if m > 0 {
      StepsCompose(Step(r, outside), m - 1, n, outside);
    }
  }

  /** The entries of the current pass that are still to be called. */
  function Rest(r: Ring): seq<nat>
    requires IsRing(r)
  {
    r.entries[|r.entries| - r.left..]
  }

  lemma StepInPass(r: Ring, outside: nat -> seq<nat>)
    requires IsRing(r) && r.left > 0
    ensures var r' := Step(r, outside);
            && Extends(r.entries, r'.entries)
            && r'.left == r.left - 1
            && r'.calls == r.calls + [Rest(r)[0]]
            && Rest(r') == Rest(r)[1..]
  {
    RegisterAllExtends(r.(calls := r.calls + [r.entries[|r.entries| - r.left]]), outside(|r.calls|));
  }

  lemma TakeNext(calls: seq<nat>, rest: seq<nat>, n: nat)
    requires 0 < n <= |rest|
    ensures calls + [rest[0]] + rest[1..][..n - 1] == calls + rest[..n]
  {
  }

  /** The rest of a pass: its remaining entries are called in order, whatever is registered meanwhile. */
  lemma {:induction false} RestOfPass(r: Ring, n: nat, outside: nat -> seq<nat>)
    requires IsRing(r) && n <= r.left
    ensures var r' := Steps(r, n, outside);
            && r'.left == r.left - n
            && r'.calls == r.calls + Rest(r)[..n]
            && Extends(r.entries, r'.entries)
    decreases n
  {
    hide Step, Extends;
    ExtendsRefl(r.entries);
    if n == 0 {
      assert Rest(r)[..0] == [];
    } else {
      var r1 := Step(r, outside);
      StepInPass(r, outside);
      RestOfPass(r1, n - 1, outside);
      TakeNext(r.calls, Rest(r), n);
      ExtendsTrans(r.entries, r1.entries, Steps(r, n, outside).entries);
    }
  }

  /** A pass started afresh calls every entry there is at its start, newest to oldest, once each.
      What is registered during the pass waits in front of them for the next pass. */
  lemma WholePass(r: Ring, n: nat, outside: nat -> seq<nat>)
    requires IsRing(r) && r.left == 0 && n <= |r.entries|
    ensures var r' := Steps(r, n, outside);
            && r'.calls == r.calls + r.entries[..n]
            && r'.left == (if n == 0 then 0 else |r.entries| - n)
            && Extends(r.entries, r'.entries)
  {
    if n == 0 {
      assert r.entries[..0] == [];
    } else {
      var started := r.(left := |r.entries|);
      assert Step(started, outside) == Step(r, outside);
      RestOfPass(started, n, outside);
      assert Rest(started) == r.entries;
    }
  }

  /** The calls of `n` scheduler steps, as complete passes and one partial pass. */
  ghost function Passes(r: Ring, n: nat, outside: nat -> seq<nat>): seq<nat>
    requires IsRing(r)
    decreases n
  {
    var k := |r.entries|;
    if k == 0 then []
    else if n < k then r.entries[..n]
    else r.entries + Passes(Steps(r, k, outside), n - k, outside)
  }

  /** Every run from the start of a pass is a sequence of complete newest-to-oldest passes over the
      entries registered by the time each pass began, and one partial pass. */
  lemma {:induction false} RunsArePasses(r: Ring, n: nat, outside: nat -> seq<nat>)
    requires IsRing(r) && r.left == 0
    ensures Steps(r, n, outside).calls == r.calls + Passes(r, n, outside)
    decreases n
  {
    var k := |r.entries|;
    if k == 0 {
      NothingRuns(r, n, outside);
    } else if n < k {
      WholePass(r, n, outside);
    } else {
      OnePassMore(r, n, outside);
      RunsArePasses(Steps(r, k, outside), n - k, outside);
    }
  }

  lemma OnePassMore(r: Ring, n: nat, outside: nat -> seq<nat>)
    requires IsRing(r) && r.left == 0 && |r.entries| <= n
    ensures var r1 := Steps(r, |r.entries|, outside);
            && r1.left == 0 && r1.calls == r.calls + r.entries
            && Steps(r, n, outside) == Steps(r1, n - |r.entries|, outside)
  {
    hide Step, Extends;
    var k := |r.entries|;
    WholePass(r, k, outside);
    assert r.entries[..k] == r.entries;
    StepsCompose(r, k, n - k, outside);
  }

  lemma {:induction false} NothingRuns(r: Ring, n: nat, outside: nat -> seq<nat>)
    requires IsRing(r) && r.entries == []
    ensures Steps(r, n, outside) == r
    decreases n
  {
    if n > 0 {
      NothingRuns(r, n - 1, outside);
    }
  }

  lemma {:induction false} QuietRun(r: Ring, n: nat, outside: nat -> seq<nat>)
    requires IsRing(r) && forall i :: outside(i) == []
    ensures Steps(r, n, outside).entries == r.entries
    decreases n
  {
    if n > 0 {
      assert Step(r, outside).entries == r.entries;
      QuietRun(Step(r, outside), n - 1, outside);
    }
  }

  lemma Rotation(r: Ring)
    requires IsRing(r)
    ensures |Rest(r)| == r.left && Rest(r)[..r.left] == Rest(r)
    ensures multiset(Rest(r) + r.entries[..|r.entries| - r.left]) == multiset(r.entries)
  {
    assert r.entries[..|r.entries| - r.left] + Rest(r) == r.entries;
  }

  /** With k entries and no registration, any k consecutive steps, from wherever the cursor is,
      call each entry exactly once and bring the cursor back. */
  lemma AnyWindowIsFair(r: Ring, outside: nat -> seq<nat>)
    requires IsRing(r) && r.left < |r.entries| && forall i :: outside(i) == []
    ensures var k, r' := |r.entries|, Steps(r, |r.entries|, outside);
            && r'.calls == r.calls + (Rest(r) + r.entries[..k - r.left])
            && multiset(Rest(r) + r.entries[..k - r.left]) == multiset(r.entries)
            && r'.left == r.left
  {
    hide Step, Steps, Extends, Rest;
    Rotation(r);
    var k := |r.entries|;
    RestOfPass(r, r.left, outside);
    var mid := Steps(r, r.left, outside);
    assert mid.calls == r.calls + Rest(r);
    QuietRun(r, r.left, outside);
    WholePass(mid, k - r.left, outside);
    StepsCompose(r, r.left, k - r.left, outside);
    assert r.calls + Rest(r) + r.entries[..k - r.left] == r.calls + (Rest(r) + r.entries[..k - r.left]);
  }

  // ---------- Registration ----------

  /** Tasks other than NULL, the last one first. */
  function Backwards(tasks: seq<nat>): seq<nat> {
    if tasks == [] then [] else Backwards(tasks[1..]) + if tasks[0] == 0 then [] else [tasks[0]]
  }

  lemma {:induction false} RegisterAllPrepends(r: Ring, tasks: seq<nat>)
    ensures RegisterAll(r, tasks).entries == Backwards(tasks) + r.entries
    decreases |tasks|
  {
    if tasks != [] {
      RegisterAllPrepends(Register(r, tasks[0]), tasks[1..]);
    }
  }

  /** What the task that runs registers is in the ring afterwards, newest first, in front of all there was; and
      it ran first, so none of this runs before the next pass. */
  lemma StepRegisters(r: Ring, outside: nat -> seq<nat>)
    requires IsRing(r) && r.entries != []
    ensures var r' := Step(r, outside);
            && r'.entries == Backwards(outside(|r.calls|)) + r.entries
            && r'.calls == r.calls + [r.entries[if r.left == 0 then 0 else |r.entries| - r.left]]
            && r'.left == (if r.left == 0 then |r.entries| else r.left) - 1
  {
    var left := if r.left == 0 then |r.entries| else r.left;
    RegisterAllPrepends(r.(left := left, calls := r.calls + [r.entries[|r.entries| - left]]), outside(|r.calls|));
  }
}
