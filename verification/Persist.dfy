/** Deferred persistence, internal/web/persist.go. Memory and disk are versions; a write is an
    atomic replace that may fail. Each region under a mutex is one atomic step. */
module Persist {
  import opened Basics

  // ---------------------------------------------------------------- the regions

  /** What the threads share: the versions in memory and on disk, the dirty flag, and whether
      the flush loop knows the store. */
  datatype Data = Data(mem: nat, disk: nat, dirty: bool, registered: bool)

  const EMPTY := Data(0, 0, false, false)

  function Changed(d: Data): Data { d.(mem := d.mem + 1) }

  function Flagged(d: Data): Data { d.(dirty := true) }

  function Enlisted(d: Data): Data { d.(registered := true) }

  function Taken(d: Data): Data { d.(dirty := false) }

  function Written(d: Data, v: nat): Data { d.(disk := v) }

  /** A whole flush that nothing disturbs. */
  function Flushed(d: Data, fails: bool): Data {
    if fails then Flagged(d) else Written(Taken(d), d.mem)
  }

  /** `persistStore`, with the versions that its `flush` callback reads and writes. The first
      methods are the regions under its mutexes, which the threads below step through; the last
      three are the calls made of them. */
  class PersistStore {
    var dirty: bool
    var registered: bool
    var mem: nat
    var disk: nat

    function View(): Data reads this { Data(mem, disk, dirty, registered) }

    constructor ()
      ensures View() == EMPTY
    {
      dirty, registered, mem, disk := false, false, 0, 0;
    }

    method Change()
      modifies this`mem
      ensures View() == Changed(old(View()))
    {
      mem := mem + 1;
    }

    method Flag()
      modifies this`dirty
      ensures View() == Flagged(old(View()))
    {
      dirty := true;
    }

    method Enlist()
      modifies this`registered
      ensures View() == Enlisted(old(View()))
    {
      if !registered {
        registered := true;
      }
    }

    /** The first region of `flushPending`. */
    method TakePending() returns (due: bool)
      modifies this`dirty
      ensures due == old(dirty) && View() == if due then Taken(old(View())) else old(View())
    {
      if !dirty {
        return false;
      }
      dirty := false;
      return true;
    }

    method TakeNow()
      modifies this`dirty
      ensures View() == Taken(old(View()))
    {
      dirty := false;
    }

    /** The replacement of the file by version `v`; `fails` says whether it goes wrong. */
    method Write(v: nat, fails: bool) returns (ok: bool)
      modifies this`disk
      ensures ok == !fails && View() == if fails then old(View()) else Written(old(View()), v)
    {
      if fails {
        return false;
      }
      disk := v;
      return true;
    }

    method MarkDirty()
      modifies this`dirty, this`registered
      ensures View() == Enlisted(Flagged(old(View())))
    {
      Flag();
      Enlist();
    }

    method FlushPending(fails: bool)
      modifies this`dirty, this`disk
      ensures View() == if old(dirty) then Flushed(old(View()), fails) else old(View())
    {
      var due := TakePending();
      if !due {
        return;
      }
      var snapshot := mem;
      var ok := Write(snapshot, fails);
      if !ok {
        Flag();
      }
    }

    method FlushNowBlocking(fails: bool) returns (ok: bool)
      modifies this`dirty, this`disk
      ensures ok == !fails && View() == Flushed(old(View()), fails)
    {
      TakeNow();
      var snapshot := mem;
      ok := Write(snapshot, fails);
      if !ok {
        Flag();
      }
    }
  }

  // ---------------------------------------------------------------- all interleavings

  /** Where a thread stands between two of its steps. */
  datatype Pc =
    | Idle
    | Mutated          // memory changed, flag not set yet
    | Marked           // flag set, store not registered yet
    | Cleared          // flusher has cleared the flag and waits for the write lock
    | Writing          // flusher holds the write lock
    | Snapped(v: nat)  // flusher has serialised version v
    | Failed           // write failed, flag not restored yet

  datatype System = System(data: Data, writer: Option<nat>, pcs: map<nat, Pc>)

  datatype Step =
    | Mutate(t: nat) | Mark(t: nat) | Register(t: nat)
    | TakePending(t: nat) | TakeNow(t: nat)
    | LockWrite(t: nat) | Snapshot(t: nat)
    | WriteOk(t: nat) | WriteFail(t: nat) | SerialiseFail(t: nat)
    | Restore(t: nat)

  const START := System(EMPTY, None, map[])

  function PcOf(s: System, t: nat): Pc {
    if t in s.pcs then s.pcs[t] else Idle
  }

  function Move(s: System, t: nat, p: Pc): System {
    s.(pcs := s.pcs[t := p])
  }

  predicate Enabled(s: System, step: Step) {
    var p := PcOf(s, step.t);
    match step
    case Mutate(_) => p == Idle
    case Mark(_) => p == Mutated
    case Register(_) => p == Marked
    case TakePending(_) => p == Idle
    case TakeNow(_) => p == Idle
    case LockWrite(_) => p == Cleared && s.writer.None?
    case Snapshot(_) => p == Writing
    case WriteOk(_) => p.Snapped?
    case WriteFail(_) => p.Snapped?
    case SerialiseFail(_) => p == Writing
    case Restore(_) => p == Failed
  }

  function Apply(s: System, step: Step): System
    requires Enabled(s, step)
  {
    var t := step.t;
    match step
    case Mutate(_) => Move(s, t, Mutated).(data := Changed(s.data))
    case Mark(_) => Move(s, t, Marked).(data := Flagged(s.data))
    case Register(_) => Move(s, t, Idle).(data := Enlisted(s.data))
    case TakePending(_) => if s.data.dirty then Move(s, t, Cleared).(data := Taken(s.data)) else s
    case TakeNow(_) => Move(s, t, Cleared).(data := Taken(s.data))
    case LockWrite(_) => Move(s, t, Writing).(writer := Some(t))
    case Snapshot(_) => Move(s, t, Snapped(s.data.mem))
    case WriteOk(_) => Move(s, t, Idle).(data := Written(s.data, PcOf(s, t).v), writer := None)
    case WriteFail(_) => Move(s, t, Failed)
    case SerialiseFail(_) => Move(s, t, Failed)
    case Restore(_) => Move(s, t, Idle).(data := Flagged(s.data), writer := None)
  }

  ghost predicate Run(s: System, steps: seq<Step>, last: System)
    decreases |steps|
  {
    if steps == [] then s == last
    else Enabled(s, steps[0]) && Run(Apply(s, steps[0]), steps[1..], last)
  }

  /** The thread still owes the disk the current version of memory. */
  predicate Owes(s: System, p: Pc) {
    p == Mutated || p == Cleared || p == Writing || p == Failed || p == Snapped(s.data.mem)
  }

  predicate HoldsLock(p: Pc) {
    p == Writing || p.Snapped? || p == Failed
  }

  ghost predicate Inv(s: System) {
    && s.data.disk <= s.data.mem
    && (forall t: nat :: HoldsLock(PcOf(s, t)) <==> s.writer == Some(t))
    && (forall t: nat :: PcOf(s, t).Snapped? ==> s.data.disk <= PcOf(s, t).v <= s.data.mem)
    && (s.data.mem > s.data.disk ==> s.data.dirty || exists t: nat :: Owes(s, PcOf(s, t)))
    && (s.data.mem > 0 ==> s.data.registered || exists t: nat :: Registers(PcOf(s, t)))
  }

  predicate Registers(p: Pc) {
    p == Mutated || p == Marked
  }

  lemma StepMoves(s: System, step: Step, x: nat)
    requires Enabled(s, step)
    ensures x != step.t ==> PcOf(Apply(s, step), x) == PcOf(s, x)
  {
  }

  lemma StepKeepsLock(s: System, step: Step)
    requires Inv(s) && Enabled(s, step)
    ensures var next := Apply(s, step);
            && next.data.disk <= next.data.mem
            && (forall t: nat :: HoldsLock(PcOf(next, t)) <==> next.writer == Some(t))
            && (forall t: nat :: PcOf(next, t).Snapped? ==> next.data.disk <= PcOf(next, t).v <= next.data.mem)
    ensures s.data.disk <= Apply(s, step).data.disk
  {
    var next := Apply(s, step);
    forall t: nat ensures HoldsLock(PcOf(next, t)) <==> next.writer == Some(t) {
      StepMoves(s, step, t);
      assert HoldsLock(PcOf(s, t)) <==> s.writer == Some(t);
      assert HoldsLock(PcOf(s, step.t)) <==> s.writer == Some(step.t);
    }
    forall t: nat | PcOf(next, t).Snapped? ensures next.data.disk <= PcOf(next, t).v <= next.data.mem {
      StepMoves(s, step, t);
      assert HoldsLock(PcOf(s, t)) <==> s.writer == Some(t);
      assert HoldsLock(PcOf(s, step.t)) <==> s.writer == Some(step.t);
    }
  }

  /** No update is lost in one step: whoever owed the disk still does, or the flag does. */
  lemma StepKeepsOwing(s: System, step: Step)
    requires Inv(s) && Enabled(s, step)
    ensures var next := Apply(s, step);
            next.data.mem > next.data.disk ==> next.data.dirty || exists t: nat :: Owes(next, PcOf(next, t))
  {
    var next, me := Apply(s, step), step.t;
    if next.data.mem > next.data.disk && !next.data.dirty {
      if !Owes(next, PcOf(next, me)) {
        assert !s.data.dirty && s.data.mem > s.data.disk;
        var t: nat :| Owes(s, PcOf(s, t));
        StepMoves(s, step, t);
        assert t != me;
        assert Owes(next, PcOf(next, t));
      }
    }
  }

  lemma StepKeepsRegistering(s: System, step: Step)
    requires Inv(s) && Enabled(s, step)
    ensures var next := Apply(s, step);
            next.data.mem > 0 ==> next.data.registered || exists t: nat :: Registers(PcOf(next, t))
  {
    var next, me := Apply(s, step), step.t;
    if next.data.mem > 0 && !next.data.registered && !Registers(PcOf(next, me)) {
      var t: nat :| Registers(PcOf(s, t));
      StepMoves(s, step, t);
      assert Registers(PcOf(next, t));
    }
  }

  lemma {:induction false} RunsKeepInv(s: System, steps: seq<Step>, last: System)
    requires Inv(s) && Run(s, steps, last)
    ensures Inv(last) && s.data.disk <= last.data.disk
    decreases |steps|
  {
    if steps != [] {
      StepKeepsLock(s, steps[0]);
      StepKeepsOwing(s, steps[0]);
      StepKeepsRegistering(s, steps[0]);
      RunsKeepInv(Apply(s, steps[0]), steps[1..], last);
    }
  }

  /** In every interleaving no update is lost and the disk never goes back. */
  lemma Reachable(steps: seq<Step>, mid: System, more: seq<Step>, last: System)
    requires Run(START, steps, mid) && Run(mid, more, last)
    ensures Inv(mid) && Inv(last) && mid.data.disk <= last.data.disk
  {
    assert forall t: nat :: PcOf(START, t) == Idle;
    RunsKeepInv(START, steps, mid);
    RunsKeepInv(mid, more, last);
  }

  ghost predicate Quiescent(s: System) {
    forall t: nat :: PcOf(s, t) == Idle
  }

  /** The steps of a thread that has cleared the flag, and how the data ends. */
  lemma ClearedFlush(s: System, t: nat, fails: bool) returns (steps: seq<Step>, last: System)
    requires PcOf(s, t) == Cleared && s.writer == None && !s.data.dirty
    ensures Run(s, steps, last) && last.data == Flushed(s.data, fails) && last.writer == None
    ensures steps == [LockWrite(t), Snapshot(t)] + (if fails then [WriteFail(t), Restore(t)] else [WriteOk(t)])
    ensures PcOf(last, t) == Idle && forall x: nat :: x != t ==> PcOf(last, x) == PcOf(s, x)
  {
    var s2 := Apply(s, LockWrite(t));
    var s3 := Apply(s2, Snapshot(t));
    assert Run(s, [], s);
    RunSnoc(s, [], s, LockWrite(t));
    RunSnoc(s, [LockWrite(t)], s2, Snapshot(t));
    steps := [LockWrite(t), Snapshot(t)];
    if fails {
      var s4 := Apply(s3, WriteFail(t));
      RunSnoc(s, steps, s3, WriteFail(t));
      RunSnoc(s, steps + [WriteFail(t)], s4, Restore(t));
      steps, last := steps + [WriteFail(t)] + [Restore(t)], Apply(s4, Restore(t));
    } else {
      RunSnoc(s, steps, s3, WriteOk(t));
      steps, last := steps + [WriteOk(t)], Apply(s3, WriteOk(t));
    }
  }

  /** A call of `flushPending` that nobody disturbs is a run of its thread, with the effect that
      the contract of the method states. */
  lemma FlushPendingIsRun(s: System, t: nat, fails: bool) returns (steps: seq<Step>, last: System)
    requires PcOf(s, t) == Idle && s.writer == None
    ensures Run(s, steps, last)
    ensures steps == if !s.data.dirty then [TakePending(t)]
                     else [TakePending(t), LockWrite(t), Snapshot(t)]
                          + (if fails then [WriteFail(t), Restore(t)] else [WriteOk(t)])
    ensures last.data == (if s.data.dirty then Flushed(s.data, fails) else s.data) && last.writer == None
    ensures forall x: nat :: PcOf(last, x) == PcOf(s, x)
  {
    var taken := Apply(s, TakePending(t));
    if s.data.dirty {
      steps, last := ClearedFlush(taken, t, fails);
      assert ([TakePending(t)] + steps)[1..] == steps;
      steps := [TakePending(t)] + steps;
    } else {
      steps, last := [TakePending(t)], taken;
      assert Run(taken, [], taken);
    }
  }

  /** So is a call of `flushNowBlocking`. */
  lemma FlushNowIsRun(s: System, t: nat, fails: bool) returns (steps: seq<Step>, last: System)
    requires PcOf(s, t) == Idle && s.writer == None
    ensures Run(s, steps, last)
    ensures steps == [TakeNow(t), LockWrite(t), Snapshot(t)]
                     + (if fails then [WriteFail(t), Restore(t)] else [WriteOk(t)])
    ensures last.data == Flushed(s.data, fails) && last.writer == None
    ensures forall x: nat :: PcOf(last, x) == PcOf(s, x)
  {
    steps, last := ClearedFlush(Apply(s, TakeNow(t)), t, fails);
    assert ([TakeNow(t)] + steps)[1..] == steps;
    steps := [TakeNow(t)] + steps;
  }

  lemma {:induction false} RunSnoc(s: System, steps: seq<Step>, mid: System, step: Step)
    requires Run(s, steps, mid) && Enabled(mid, step)
    ensures Run(s, steps + [step], Apply(mid, step))
    decreases |steps|
  {
    if steps == [] {
      assert Run(Apply(mid, step), [], Apply(mid, step));
    } else {
      assert (steps + [step])[1..] == steps[1..] + [step];
      RunSnoc(Apply(s, steps[0]), steps[1..], mid, step);
    }
  }

  /** At rest, unsaved memory is flagged in a registered store, and one undisturbed flush of the
      loop saves it. */
  lemma QuiescentCanSave(s: System, t: nat) returns (steps: seq<Step>, last: System)
    requires Inv(s) && Quiescent(s)
    ensures s.data.mem > s.data.disk ==> s.data.dirty && s.data.registered
    ensures Run(s, steps, last) && last.data.disk == last.data.mem == s.data.mem && Quiescent(last)
    ensures s.data.mem == s.data.disk || steps == [TakePending(t), LockWrite(t), Snapshot(t), WriteOk(t)]
  {
    assert forall x: nat :: !Owes(s, PcOf(s, x)) && !Registers(PcOf(s, x));
    forall x: nat ensures s.writer != Some(x) {
      assert PcOf(s, x) == Idle;
    }
    assert s.writer == None;
    steps, last := FlushPendingIsRun(s, t, false);
  }
}
