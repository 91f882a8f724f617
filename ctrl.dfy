/** The actuator layer of serbpictrl.py: the front light's mode cycling, the three blink channels
    (rear, left, right) with their worker threads, the PWM lock and the two composite actions.
    The module-level globals of the source become the fields of one `Actuators` object; each blink
    channel's flag, thread handle and output pin become one `BlinkChannel` object. */
module Ctrl {

  datatype Option<T> = None | Some(value: T)

  // Front light modes, in the order the hardware's "next mode" button steps through them.
  const MODE_OFF := 0
  const MODE_HIGH := 1
  const MODE_LOW := 2
  const MODE_BLINK := 3

  // PWM duty values written to the lock pin.
  const LOCKED_DUTY := 55
  const UNLOCKED_DUTY := 135

  predicate IsMode(m: int) {
    MODE_OFF <= m <= MODE_BLINK
  }

  // ---------------------------------------------------------------------------------------------
  // Front light mode arithmetic

  /** The mode the front light is in after one press of its button (serbpictrl.py:58-61). */
  function NextMode(m: int): int {
    if m == MODE_BLINK then MODE_OFF else m + 1
  }

  /** The mode reached from `m` after `k` presses. */
  function Advance(m: int, k: nat): int
    decreases k
  {
    if k == 0 then m else Advance(NextMode(m), k - 1)
  }

  /** Pressing the button walks the four modes as a cycle of length four. */
  lemma {:induction false} AdvanceIsModular(m: int, k: nat)
    requires IsMode(m)
    ensures Advance(m, k) == (m + k) % 4
    decreases k
  {
    if k > 0 {
      AdvanceIsModular(NextMode(m), k - 1);
    }
  }

  /** The number of presses that takes the front light from mode `from` to mode `to`. */
  function Pulses(from: int, to: int): (n: nat)
    requires IsMode(from) && IsMode(to)
    ensures n <= 3
    ensures n == 0 <==> from == to
    ensures from == MODE_OFF && to == MODE_BLINK ==> n == 3
    ensures from == MODE_BLINK && to == MODE_OFF ==> n == 1
  {
    (to - from + 4) % 4
  }

  /** `Pulses(from, to)` presses reach `to`, and no smaller number of presses does: it is
      exactly the number of iterations of the loop in `SetFrontMode`. */
  lemma PulsesReach(from: int, to: int)
    requires IsMode(from) && IsMode(to)
    ensures Advance(from, Pulses(from, to)) == to
    ensures forall k: nat :: k < Pulses(from, to) ==> Advance(from, k) != to
  {
    AdvanceIsModular(from, Pulses(from, to));
    forall k: nat | k < Pulses(from, to)
      ensures Advance(from, k) != to
    {
      AdvanceIsModular(from, k);
    }
  }

  // ---------------------------------------------------------------------------------------------
  // The blink worker loop as a step relation

  /** Where a blink worker thread stands in its loop: before the check that precedes the write
      of True, before that write, before the check that precedes the write of False, before that
      write, or finished. */
  datatype Pc = CheckOn | WriteOn | CheckOff | WriteOff | Done

  /** What one step of a worker does: read the channel's flag, or write the output pin. */
  datatype Event = Checked(seen: bool) | Wrote(level: bool)

  /** One step of a live worker, given the value of the channel's flag at that moment: one pass
      through a check or a write of the loop body at serbpictrl.py:75-85. */
  function Step(pc: Pc, running: bool): (Pc, Event)
    requires pc != Done
  {
    match pc
    case CheckOn => if running then (WriteOn, Checked(true)) else (Done, Checked(false))
    case WriteOn => (CheckOff, Wrote(true))
    case CheckOff => if running then (WriteOff, Checked(true)) else (Done, Checked(false))
    case WriteOff => (CheckOn, Wrote(false))
  }

  /** A worker run from `pc` for as many steps as `flags` has values (the flag seen at step k
      is `flags[k]`), or until it finishes: where it ends, and what it did. */
  function Run(pc: Pc, flags: seq<bool>): (Pc, seq<Event>)
    decreases |flags|
  {
    if pc == Done || flags == [] then (pc, [])
    else
      var (next, ev) := Step(pc, flags[0]);
      var (last, evs) := Run(next, flags[1..]);
      (last, [ev] + evs)
  }

  /** The number of steps a worker still takes once its flag is False. */
  function Rank(pc: Pc): nat {
    match pc
    case Done => 0
    case CheckOn => 1
    case CheckOff => 1
    case WriteOn => 2
    case WriteOff => 2
  }

  /** The position of `pc` in the four-step cycle of the loop. */
  function Phase(pc: Pc): nat {
    match pc
    case CheckOn => 0
    case WriteOn => 1
    case CheckOff => 2
    case WriteOff => 3
    case Done => 0
  }

  /** Every check reports the flag of its own step; the first check that sees False ends the
      worker, and nothing happens after it; a worker stops early only through such a check. */
  lemma {:induction false} ExitAtFirstFalse(pc: Pc, flags: seq<bool>)
    ensures var (last, evs) := Run(pc, flags);
      && |evs| <= |flags|
      && (forall k :: 0 <= k < |evs| && evs[k].Checked? ==> evs[k].seen == flags[k])
      && (forall k :: 0 <= k < |evs| && evs[k] == Checked(false) ==> k == |evs| - 1 && last == Done)
      && (pc != Done && last == Done ==> |evs| > 0 && evs[|evs| - 1] == Checked(false))
      && (last != Done ==> |evs| == |flags|)
    decreases |flags|
  {
    if pc != Done && flags != [] {
      var (next, ev) := Step(pc, flags[0]);
      ExitAtFirstFalse(next, flags[1..]);
      var (last, evs) := Run(next, flags[1..]);
      assert Run(pc, flags) == (last, [ev] + evs);
    }
  }

  /** The output is written only right after a check that saw the flag set; only a worker that
      is already past such a check can begin with a write. */
  lemma {:induction false} WritesOnlyAfterSeenSet(pc: Pc, flags: seq<bool>)
    ensures var evs := Run(pc, flags).1;
      && (forall k :: 0 < k < |evs| && evs[k].Wrote? ==> evs[k - 1] == Checked(true))
      && (|evs| > 0 && evs[0].Wrote? ==> pc == WriteOn || pc == WriteOff)
    decreases |flags|
  {
    if pc != Done && flags != [] {
      var (next, ev) := Step(pc, flags[0]);
      WritesOnlyAfterSeenSet(next, flags[1..]);
      var evs := Run(next, flags[1..]).1;
      var all := Run(pc, flags).1;
      assert all == [ev] + evs;
      forall k | 0 < k < |all| && all[k].Wrote?
        ensures all[k - 1] == Checked(true)
      {
        if k == 1 {
          assert evs[0].Wrote?;
          assert next == WriteOn || next == WriteOff;
        } else {
          assert all[k] == evs[k - 1] && all[k - 1] == evs[k - 2];
        }
      }
    }
  }

  /** The output pattern of a worker: checks and writes alternate, and the writes alternate
      True, False, True, ... in step with the loop's position. */
  lemma {:induction false} Waveform(pc: Pc, flags: seq<bool>)
    ensures forall k :: 0 <= k < |Run(pc, flags).1| ==>
      && (Run(pc, flags).1[k].Wrote? <==> (k + Phase(pc)) % 2 == 1)
      && (Run(pc, flags).1[k].Wrote? ==> Run(pc, flags).1[k].level == ((k + Phase(pc)) % 4 == 1))
    decreases |flags|
  {
    if pc != Done && flags != [] {
      var (next, ev) := Step(pc, flags[0]);
      Waveform(next, flags[1..]);
      var evs := Run(next, flags[1..]).1;
      var all := Run(pc, flags).1;
      assert all == [ev] + evs;
      forall k | 0 <= k < |all|
        ensures all[k].Wrote? <==> (k + Phase(pc)) % 2 == 1
        ensures all[k].Wrote? ==> all[k].level == ((k + Phase(pc)) % 4 == 1)
      {
        if k == 0 {
          assert all[0] == ev;
        } else {
          assert all[k] == evs[k - 1];
          assert evs[k - 1].Wrote? <==> (k - 1 + Phase(next)) % 2 == 1;
          assert evs[k - 1].Wrote? ==> evs[k - 1].level == ((k - 1 + Phase(next)) % 4 == 1);
          assert next != Done && Phase(next) == (Phase(pc) + 1) % 4;
          assert (k + Phase(pc)) % 4 == (k - 1 + Phase(next)) % 4;
          assert (k + Phase(pc)) % 2 == (k - 1 + Phase(next)) % 2;
        }
      }
    }
  }

  /** A worker started by `Start`, run against any schedule of flag values, writes True then
      False alternately, each write right after a check that saw the flag set. */
  lemma StartedWorker(flags: seq<bool>)
    ensures var evs := Run(CheckOn, flags).1;
      forall k :: 0 <= k < |evs| ==>
        && (evs[k].Wrote? <==> k % 2 == 1)
        && (evs[k].Wrote? ==> 0 < k && evs[k - 1] == Checked(true) && evs[k].level == (k % 4 == 1))
  {
    WritesOnlyAfterSeenSet(CheckOn, flags);
    Waveform(CheckOn, flags);
  }

  /** Once the flag is False a worker finishes within two steps, having written at most once;
      this bounds how long `Stop` waits in its join. */
  lemma JoinSettles(pc: Pc)
    requires pc != Done
    ensures var (last, evs) := Run(pc, [false, false]);
      && last == Done
      && |evs| == Rank(pc)
      && (evs[0].Wrote? ==> evs[0].level == (pc == WriteOn))
      && (|evs| == 2 ==> evs[1] == Checked(false))
  {
  }

  // ---------------------------------------------------------------------------------------------
  // Blink channels

  /** One blinkable output (serbpictrl.py:33-43): the flag guarded by the channel's lock
      (`isRearBlinking` and its siblings), the worker threads created so far for the channel, the
      thread handle (`backthread` and its siblings, an index into `threads`), and the output pin. */
  class BlinkChannel {
    var running: bool
    var threads: seq<Pc>
    var handle: Option<nat>
    var level: bool

    /** The threads still running. */
    ghost function Workers(): set<nat>
      reads this
    {
      set i | 0 <= i < |threads| && threads[i] != Done
    }

    /** The flag is set exactly when a handle is held, and the handled thread is the only live one. */
    ghost predicate Valid()
      reads this
    {
      && running == handle.Some?
      && (handle.Some? ==> handle.value < |threads|)
      && Workers() == (if handle.Some? then {handle.value} else {})
    }

    /** Blinking: the flag set and exactly one worker, the one the handle holds. */
    ghost predicate Blinking()
      reads this
    {
      running && handle.Some? && Workers() == {handle.value}
    }

    /** Stopped: flag clear, no handle, no live worker, output at `rest`. */
    ghost predicate Resting(rest: bool)
      reads this
    {
      !running && handle.None? && Workers() == {} && level == rest
    }

    constructor ()
      ensures Valid() && Resting(false) && threads == []
    {
      running := false;
      threads := [];
      handle := None;
      level := false;
    }

    /** `startBlinkRear`, `turnLeft`, `turnRight`: nothing if a handle is held; otherwise set the
        flag and create and record one new worker at the top of its loop. */
    method Start()
      requires Valid()
      modifies this
      ensures Valid() && Blinking()
      ensures old(handle).Some? ==> unchanged(this)
      ensures old(handle).None? ==>
        && threads == old(threads) + [CheckOn]
        && handle == Some(|old(threads)|)
        && level == old(level)
    {
      if handle.Some? {
        return;
      }
      running := true;
      threads := threads + [CheckOn];
      handle := Some(|threads| - 1);
      assert Workers() == {handle.value} by {
        assert forall i :: 0 <= i < |threads| - 1 ==> threads[i] == old(threads)[i];
      }
    }

    /** Thread `i` takes one step, seeing the flag as it stands now. */
    method Tick(i: nat)
      requires i < |threads| && threads[i] != Done
      modifies this`threads, this`level
      ensures threads == old(threads)[i := Step(old(threads[i]), running).0]
      ensures level == match Step(old(threads[i]), running).1
                       case Wrote(b) => b
                       case Checked(_) => old(level)
    {
      var (next, ev) := Step(threads[i], running);
      threads := threads[i := next];
      if ev.Wrote? {
        level := ev.level;
      }
    }

    /** One step of the worker loop of the channel (`blinkRearThread`, `turnLeftThread`,
        `turnRightThread`), as scheduled between the dispatcher's calls. A worker whose flag is
        set never finishes, so the channel stays as valid as before. */
    method WorkerStep(i: nat)
      requires Valid() && i in Workers()
      modifies this`threads, this`level
      ensures Valid() && Workers() == old(Workers())
      ensures threads == old(threads)[i := Step(old(threads[i]), true).0]
      ensures level == match Step(old(threads[i]), true).1
                       case Wrote(b) => b
                       case Checked(_) => old(level)
    {
      Tick(i);
      assert forall j :: 0 <= j < |threads| && j != i ==> threads[j] == old(threads)[j];
      assert Workers() == old(Workers());
    }

    /** `endBlinkRear(state)`, `doneLeftTurn`, `doneRightTurn`: clear the flag, wait until the
        handled worker has finished (`safejoin`, nothing to wait for without a handle), drop the
        handle and drive the output to `rest`. */
    method Stop(rest: bool)
      requires Valid()
      modifies this
      ensures Valid() && Resting(rest)
      ensures |threads| == |old(threads)|
      ensures forall i :: 0 <= i < |threads| && old(threads)[i] == Done ==> threads[i] == Done
    {
      running := false;
      if handle.Some? {
        var h := handle.value;
        assert forall j :: 0 <= j < |threads| && threads[j] != Done ==> j in Workers();
        while threads[h] != Done
          invariant h < |threads| == |old(threads)|
          invariant !running && handle == Some(h)
          invariant forall j :: 0 <= j < |threads| && j != h ==> threads[j] == Done
          decreases Rank(threads[h])
        {
          Tick(h);
        }
      }
      handle := None;
      level := rest;
      assert Workers() == {};
    }
  }

  /** What a start call did to channel `c`: nothing if it already held a handle; otherwise one new
      worker at the top of its loop, recorded in the handle, with the output untouched. Either way
      the channel is blinking with exactly one worker. */
  twostate predicate Started(c: BlinkChannel)
    reads c
  {
    && c.Blinking()
    && (old(c.handle).Some? ==> unchanged(c))
    && (old(c.handle).None? ==>
          && c.threads == old(c.threads) + [CheckOn]
          && c.handle == Some(|old(c.threads)|)
          && c.level == old(c.level))
  }

  /** What a stop call did to channel `c`: it rests at `rest` with no handle and no live worker,
      and no thread was added or dropped. */
  twostate predicate Stopped(c: BlinkChannel, rest: bool)
    reads c
  {
    c.Resting(rest) && |c.threads| == |old(c.threads)|
  }

  // ---------------------------------------------------------------------------------------------
  // The actuators

  /** All outputs the controller drives and the state it keeps about them. */
  class Actuators {
    var frontMode: int     // `frontmode`: the mode the front light is believed to be in
    var frontLevel: bool   // the front light's button pin
    var pulses: nat        // button presses issued so far
    const rear: BlinkChannel
    const left: BlinkChannel
    const right: BlinkChannel
    var lockDuty: int      // last PWM duty written to the lock pin (0 before any)

    ghost predicate Valid()
      reads this, rear, left, right
    {
      && IsMode(frontMode)
      && !frontLevel
      && rear != left && rear != right && left != right
      && rear.Valid() && left.Valid() && right.Valid()
    }

    /** The state right after start-up: front light off, every pin low, no worker. */
    constructor ()
      ensures Valid()
      ensures frontMode == MODE_OFF && pulses == 0 && lockDuty == 0
      ensures fresh(rear) && fresh(left) && fresh(right)
      ensures rear.Resting(false) && left.Resting(false) && right.Resting(false)
    {
      frontMode := MODE_OFF;
      frontLevel := false;
      pulses := 0;
      lockDuty := 0;
      rear := new BlinkChannel();
      left := new BlinkChannel();
      right := new BlinkChannel();
    }

    /** `frontButtonPress`: one pulse on the front light's button pin, which ends low. */
    method FrontButtonPress()
      modifies this`frontLevel, this`pulses
      ensures !frontLevel && pulses == old(pulses) + 1
    {
      frontLevel := true;
      frontLevel := false;
      pulses := pulses + 1;
    }

    /** `setFrontMode`: an invalid mode is ignored; otherwise press the button until the tracked
        mode is `mode`, which takes exactly `Pulses(old mode, mode)` presses. */
    method SetFrontMode(mode: int)
      requires Valid()
      modifies this`frontMode, this`frontLevel, this`pulses
      ensures Valid()
      ensures !IsMode(mode) ==> unchanged(this)
      ensures IsMode(mode) ==>
        frontMode == mode && pulses == old(pulses) + Pulses(old(frontMode), mode)
    {
      if mode > MODE_BLINK || mode < MODE_OFF {
        return;
      }
      ghost var start := frontMode;
      ghost var k: nat := 0;
      PulsesReach(start, mode);
      while frontMode != mode
        invariant IsMode(frontMode) && !frontLevel
        invariant k <= Pulses(start, mode)
        invariant frontMode == Advance(start, k)
        invariant pulses == old(pulses) + k
        decreases Pulses(start, mode) - k
      {
        FrontButtonPress();
        if frontMode == MODE_BLINK {
          frontMode := MODE_OFF;
        } else {
          frontMode := frontMode + 1;
        }
        AdvanceIsModular(start, k);
        AdvanceIsModular(start, k + 1);
        k := k + 1;
      }
    }

    method StartBlinkRear()
      requires Valid()
      modifies rear
      ensures Valid() && Started(rear)
      ensures unchanged(this, left, right)
    {
      rear.Start();
    }

    method TurnLeft()
      requires Valid()
      modifies left
      ensures Valid() && Started(left)
      ensures unchanged(this, rear, right)
    {
      left.Start();
    }

    method TurnRight()
      requires Valid()
      modifies right
      ensures Valid() && Started(right)
      ensures unchanged(this, rear, left)
    {
      right.Start();
    }

    method DoneLeftTurn()
      requires Valid()
      modifies left
      ensures Valid() && Stopped(left, false)
      ensures unchanged(this, rear, right)
    {
      left.Stop(false);
    }

    method DoneRightTurn()
      requires Valid()
      modifies right
      ensures Valid() && Stopped(right, false)
      ensures unchanged(this, rear, left)
    {
      right.Stop(false);
    }

    method EndBlinkRear(state: bool)
      requires Valid()
      modifies rear
      ensures Valid() && Stopped(rear, state)
      ensures unchanged(this, left, right)
    {
      rear.Stop(state);
    }

    method OnRear()
      requires Valid()
      modifies rear
      ensures Valid() && Stopped(rear, true)
      ensures unchanged(this, left, right)
    {
      EndBlinkRear(true);
    }

    method OffRear()
      requires Valid()
      modifies rear
      ensures Valid() && Stopped(rear, false)
      ensures unchanged(this, left, right)
    {
      EndBlinkRear(false);
    }

    method Lock()
      modifies this`lockDuty
      ensures lockDuty == LOCKED_DUTY
      ensures frontMode == old(frontMode) && pulses == old(pulses) && unchanged(rear, left, right)
    {
      lockDuty := LOCKED_DUTY;
    }

    method Unlock()
      modifies this`lockDuty
      ensures lockDuty == UNLOCKED_DUTY
      ensures frontMode == old(frontMode) && pulses == old(pulses) && unchanged(rear, left, right)
    {
      lockDuty := UNLOCKED_DUTY;
    }

    /** `hazardLights`: front light to BLINK, then start rear, left and right. */
    method HazardLights()
      requires Valid()
      modifies this`frontMode, this`frontLevel, this`pulses, rear, left, right
      ensures Valid()
      ensures frontMode == MODE_BLINK && pulses == old(pulses) + Pulses(old(frontMode), MODE_BLINK)
      ensures Started(rear) && Started(left) && Started(right)
      ensures lockDuty == old(lockDuty)
    {
      SetFrontMode(MODE_BLINK);
      StartBlinkRear();
      TurnLeft();
      TurnRight();
    }

    /** `offAll`: front light to OFF, then stop left, right and rear, all resting low. */
    method OffAll()
      requires Valid()
      modifies this`frontMode, this`frontLevel, this`pulses, rear, left, right
      ensures Valid()
      ensures frontMode == MODE_OFF && pulses == old(pulses) + Pulses(old(frontMode), MODE_OFF)
      ensures Stopped(rear, false) && Stopped(left, false) && Stopped(right, false)
      ensures lockDuty == old(lockDuty)
    {
      SetFrontMode(MODE_OFF);
      DoneLeftTurn();
      DoneRightTurn();
      OffRear();
    }
  }
}
