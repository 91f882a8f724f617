# Actuator control layer of the serb-python light and lock controller

This project models the part of the Raspberry Pi controller that drives the outputs, and proves properties of that model. The outputs are a front light, a blinking rear light, left and right turn indicators and a PWM-driven lock. The model has two parts:

- `ctrl.dfy` (module `Ctrl`) models `serbpictrl.py`.
  - The front light can only change mode through a "next mode" button. `Actuators.SetFrontMode` presses it until the tracked `frontmode` reaches the target.
  - There are three blink channels: rear, left and right. Each is a `BlinkChannel` object. It holds the lock-guarded running flag, the threads started for the channel, the thread handle (an index into those threads, or `None`) and the output pin level.
  - A worker thread is represented by its position in the blink loop (`Pc`). The loop body is the step function `Step`. `Run` applies that step to a schedule of flag values.
  - Joining a thread means running its steps, with the flag False, until it reaches `Done`.
  - The lock is the last PWM duty written. `hazardLights` and `offAll` are composite methods.
- `ble.dfy` (module `Ble`) models `LightCharacteristic.WriteValue` from `serbpible.py`.
  - `Decode` maps a `(device, state)` byte pair to a `Command`. Pairs that are not in the table become `Ignore`.
  - `Execute` issues the actuator calls for a command, in the handler's order.
  - `Performed` states the effect of each command on the actuators.

`BlinkChannel.Valid` is the channel invariant. The flag is set exactly when a handle is held, and the thread the handle names is the only live worker. So a channel never has more than one worker. It also follows that a `Start` after a `Stop` cannot overlap a previous worker, because `Stop` returns only after that worker has reached `Done`.

## Model

| member | source | states |
|---|---|---|
| `Ctrl.AdvanceIsModular` | serbpictrl.py:56-61 | Pressing the button `k` times from a valid mode gives mode `(m + k) mod 4`, so 3 wraps to 0. |
| `Ctrl.Pulses` | serbpictrl.py:56-61 | The number of presses from one mode to another is at most 3. It is 0 exactly when the modes are equal, so repeating a target is idempotent. OFF to BLINK takes 3 presses and BLINK to OFF takes 1. |
| `Ctrl.PulsesReach` | serbpictrl.py:56-61 | `Pulses(from, to)` presses reach `to`, and no smaller number does. This is the exact iteration count of the `while frontmode != mode` loop. |
| `Ctrl.ExitAtFirstFalse` | serbpictrl.py:74-85 | In any run of a worker, each check reports the flag value at that step. A check that sees False is the last event and leaves the worker `Done`, so nothing is written after exit. A worker ends early only through such a check. |
| `Ctrl.WritesOnlyAfterSeenSet` | serbpictrl.py:74-85 | Every write to the output directly follows a check that saw the flag True. A run can begin with a write only if the worker is already past such a check. |
| `Ctrl.Waveform` | serbpictrl.py:74-85 | Checks and writes alternate, and the writes alternate True and False in step with the loop position. |
| `Ctrl.StartedWorker` | serbpictrl.py:64-85 | A freshly started worker writes at exactly the odd steps: True at steps 1, 5, 9, … and False at steps 3, 7, …. Every even step is a check. Each write comes only right after a check that saw the flag set. This holds for any schedule of flag values. |
| `Ctrl.JoinSettles` | serbpictrl.py:186-188 | Once the flag is False, a live worker finishes within `Rank(pc)` ≤ 2 steps and writes at most once: a second step is always the check that sees False. The one write is True only from the position just before the True write. This bounds the join. |
| `Ctrl.BlinkChannel.constructor` | serbpictrl.py:33-43 | A new channel has its flag clear, no handle and no thread. Its output is taken to be low (see "Left out"). |
| `Ctrl.BlinkChannel.Start` | serbpictrl.py:64-71 | If a handle is held, nothing changes. Otherwise the flag is set, exactly one new worker is created at the top of its loop and its handle is recorded. The output is untouched. Either way the result is exactly one live worker. |
| `Ctrl.BlinkChannel.Tick` | serbpictrl.py:75-85 | Thread `i` takes one step of the loop body, seeing the current flag. Its program counter becomes the one `Step` gives, and the pin changes only on a write step, to the written level. Both `WorkerStep` and the join inside `Stop` are made of these steps. |
| `Ctrl.BlinkChannel.WorkerStep` | serbpictrl.py:74-85 | One step of the live worker (also `turnLeftThread` at lines 98-109 and `turnRightThread` at lines 122-133) moves it as `Step` says with the flag set. It writes the pin only on a write step, keeps the channel valid and never finishes while the flag is set. |
| `Ctrl.BlinkChannel.Stop` | serbpictrl.py:162-168 | The flag is cleared and the handled worker is run to `Done`. Stopping an idle channel is safe, as with `safejoin(None)`. Afterwards there is no handle and no live worker, and the output is at the rest level, whatever half-period the worker was in. |
| `Ctrl.Actuators.constructor` | serbpictrl.py:11-43 | Start-up state: three new channel objects, front mode OFF, no workers and no presses. The pins are taken to be low (see "Left out"). |
| `Ctrl.Actuators.FrontButtonPress` | serbpictrl.py:46-49 | Issues one press and leaves the front pin low. |
| `Ctrl.Actuators.SetFrontMode` | serbpictrl.py:52-61 | A mode outside 0..3 changes nothing. Otherwise the tracked mode becomes `mode` after exactly `Pulses(old mode, mode)` presses, and the mode stays in 0..3. |
| `Ctrl.Actuators.StartBlinkRear` | serbpictrl.py:64-71 | `Started(rear)`: if rear already had a handle it is unchanged. Otherwise it gains exactly one new worker at the top of its loop, recorded in the handle, with its output untouched. Nothing else changes. |
| `Ctrl.Actuators.TurnLeft` | serbpictrl.py:88-95 | `Started(left)`: if left already had a handle it is unchanged. Otherwise it gains exactly one new worker at the top of its loop, recorded in the handle, with its output untouched. Nothing else changes. |
| `Ctrl.Actuators.TurnRight` | serbpictrl.py:112-119 | `Started(right)`: if right already had a handle it is unchanged. Otherwise it gains exactly one new worker at the top of its loop, recorded in the handle, with its output untouched. Nothing else changes. |
| `Ctrl.Actuators.DoneLeftTurn` | serbpictrl.py:136-142 | `Stopped(left, false)`: the left channel has its flag clear, no handle, no live worker and the output low, and keeps its thread count. Nothing else changes. |
| `Ctrl.Actuators.DoneRightTurn` | serbpictrl.py:145-151 | `Stopped(right, false)`: the right channel has its flag clear, no handle, no live worker and the output low, and keeps its thread count. Nothing else changes. |
| `Ctrl.Actuators.EndBlinkRear` | serbpictrl.py:162-168 | `Stopped(rear, state)`: the rear channel has its flag clear, no handle, no live worker and the output at `state`, and keeps its thread count. Nothing else changes. |
| `Ctrl.Actuators.OnRear` | serbpictrl.py:154-155 | `Stopped(rear, true)`: the rear channel is stopped with its output high. Nothing else changes. |
| `Ctrl.Actuators.OffRear` | serbpictrl.py:158-159 | `Stopped(rear, false)`: the rear channel is stopped with its output low. Nothing else changes. |
| `Ctrl.Actuators.Lock` | serbpictrl.py:171-172 | The lock duty becomes 55. Nothing else changes. |
| `Ctrl.Actuators.Unlock` | serbpictrl.py:175-176 | The lock duty becomes 135. Nothing else changes. |
| `Ctrl.Actuators.HazardLights` | serbpictrl.py:179-183 | The front mode becomes BLINK after exactly `Pulses(old mode, BLINK)` presses. Rear, left and right are each `Started`: a channel that was already blinking is left untouched, and any other gains one new worker at the top of its loop. The lock is untouched. |
| `Ctrl.Actuators.OffAll` | serbpictrl.py:191-195 | The front mode becomes OFF after exactly `Pulses(old mode, OFF)` presses. Rear, left and right are each `Stopped` low: no handle, no live worker, thread count kept. The lock is untouched. |
| `Ble.Decode` | serbpible.py:63-102 | A pair in the command table (constants at serbpible.py:21-31) gives its command. Every other pair, such as a device above 4, (LOCK, LOW), (TURN, ON), (REAR, LOW) or (ALL, BLINK), is ignored. FRONT with state 0..3 sets the mode of the same number. |
| `Ble.Execute` | serbpible.py:67-102 | Each command has the effect `Performed` states. Ignore changes nothing. (ALL, ON) and (ALL, OFF) also fix the press count. A start leaves an already-blinking channel untouched and otherwise adds one worker at the top of its loop without touching the output. (TURN, LEFT) leaves right stopped and low and left blinking, and (TURN, RIGHT) is the mirror image. (TURN, OFF) stops both. Each REAR state rests or starts the rear channel. LOCK ON/OFF write 55 or 135. |
| `Ble.WriteValue` | serbpible.py:63-102 | Only the first two bytes are read, as device and state. The actuators end as `Performed` states for `Decode(value[0], value[1])`. |

## Left out

- `WriteValue` requires `|value| >= 2`. A shorter value raises IndexError at serbpible.py:65-66 before any actuator call, and that error path is not modelled. Bytes past the second are never read.
- `lockDuty` starts at 0, meaning no duty written yet. serbpictrl.py:27-31 configures the PWM but writes no duty before `lock`/`unlock`.
- The four digital outputs (front, rear, left, right) are assumed to start low. serbpictrl.py:22-25 sets them up as outputs with no initial level, and nothing writes them before the first command.

- Threads, channel locks and `time.sleep` (0.1 s rear and front pulse, 0.5 s turn) are not modelled as concurrency or time.
  - Each method is atomic.
  - Worker progress is modelled by `BlinkChannel.WorkerStep`, which the environment may call between the dispatcher's calls.
  - A join runs the worker's remaining steps.
  - A worker stuck inside a hardware call, which would block `Stop` forever, is not modelled.
- Root-privilege check, GPIO/wiringpi pin setup and PWM clock/range setup (serbpictrl.py:8-31) are hardware initialisation through foreign calls. The outputs are plain fields.
- `cleanup` (serbpictrl.py:198-201), registered with `atexit`, calls `offAll` and then `GPIO.cleanup`. Process exit and hardware release are not modelled. `OffAll` covers the first call.
- The D-Bus/BlueZ GATT application, advertisement, service and characteristic registration and the GLib main loop (serbpible.py:1-61, 105-157) are transport plumbing over libraries outside this model.
- The `print` logging in the write handler (serbpible.py:64) is not modelled.
- The front pin's momentary True during a press is not recorded. The model keeps only the press count and the final low level.
