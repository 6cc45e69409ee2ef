# Video player playback machine, in Dafny

A model of the playback logic of the XState video player
(`components/VideoPlayer.tsx`): the `videoMachine` statechart with its bound
actions, the choice of the single control button, and the `m:ss` time
readout.

- `video_machine.dfy` (module `VideoMachine`): the states `loading`,
  `ready.{paused, playing, ended}` and `failure`; the context
  (`video`, `elapsed`, `duration`); the events `LOADED(handle)`, `FAILED`,
  `PLAY`, `PAUSE`, `TIMING`, `END` and `RESTART`; and a pure, total
  `Step : (timing effects, configuration, event) -> (configuration, commands)`.
  The entry actions `playVideo` and `pauseVideo` become the commands
  `PlayVideo` and `PauseVideo`. The `setVideo` and `setElapsed` assignments
  become context updates. The `on` maps are also written down as data
  (`Table`), and `EntryEffects` lists each state's entry command. Both serve
  as reference definitions that the step function is proved against. `Run`
  folds `Step` over a sequence of events.
- `machine_properties.dfy` (module `MachineProperties`): single-step and
  event-sequence properties of the machine.
- `controls.dfy` (module `Controls`): the button switch. It shows pause while
  playing and restart once ended; otherwise it shows play.
- `time_format.dfy` (module `TimeFormat`): `formatTime` over whole seconds.
  It comes with a parser for the same format, used to state the round trip
  in both directions.
- `wrappers.dfy` (module `Wrappers`): `Option`.

Modelling choices:

- The media element is a `Handle` record that holds its `duration`. The
  machine reads the element's `currentTime` when `TIMING` arrives. That
  reading comes from the browser, so the `Timing` event carries it as a
  payload.
- `elapsed` and `duration` are `real` values. The model only copies them.
- `TIMING` is written as a transition with `target: 'playing'` from inside
  `playing`. Whether the statechart library then exits and re-enters
  `playing`, running `playVideo` again, is a question of the library's
  semantics. So `Step` takes the commands that `TIMING` issues as a
  parameter (`timingEffects`). The new state and context after `TIMING` do
  not depend on that choice, and they are fully specified.
- The library runs `assign` actions before the other actions. So on
  `LOADED`, `pauseVideo` already sees the newly stored element.
  `CommandsHaveATarget` states that every command is issued while an
  element is stored.
- Only `loading` lists `FAILED`, so after a load a `FAILED` event is ignored
  rather than leading to `failure`. `failure` is a top-level final state:
  the interpreter stops there, and later events change nothing.

## Model

| member | source | states |
|---|---|---|
| VideoMachine.Step | components/VideoPlayer.tsx:12-80 | one event keeps a configuration well formed: loading and failure hold the initial context, and in ready a media element is stored and `duration` is its duration |
| VideoMachine.Run | components/VideoPlayer.tsx:12-60 | every configuration reached by a sequence of events from a well-formed one (so from the start) is well formed |
| VideoMachine.FirstLoadEvent | components/VideoPlayer.tsx:21-26 | finds the first event that `loading` reacts to: a result is a `LOADED` or `FAILED` at some position with no `LOADED` or `FAILED` before it, and no result means the sequence has no such event |
| VideoMachine.EntryEffects | components/VideoPlayer.tsx:27-53 | the entry actions (`pauseVideo` on paused and ended, `playVideo` on playing) issue exactly one command in each ready sub-state and none in loading or failure; `EffectsAreEntryActions` ties them to the step function |
| MachineProperties.LoadedFromLoading | components/VideoPlayer.tsx:21-32 | `LOADED(h)` in loading enters `ready.paused`, stores `h` and `h.duration` (`setVideo`, lines 67-70), keeps `elapsed`, and issues exactly one pause command (`pauseVideo`, lines 74-76) |
| MachineProperties.LoadedFromInit | components/VideoPlayer.tsx:12-32 | the machine starts in loading with no element, `elapsed = 0` and `duration = 0`, which is well formed; `LOADED(h)` then gives `ready.paused` with `elapsed = 0`, `duration = h.duration` and one pause command |
| MachineProperties.FailedFromLoading | components/VideoPlayer.tsx:21-25 | `FAILED` in loading enters failure, keeps the context and issues nothing |
| MachineProperties.FailureIsFinal | components/VideoPlayer.tsx:56-58 | in the final failure state every event leaves state and context unchanged and issues nothing |
| MachineProperties.FailureIsFinalForever | components/VideoPlayer.tsx:56-58 | once failed, any sequence of events leaves the configuration unchanged and issues nothing |
| MachineProperties.UserTransitions | components/VideoPlayer.tsx:31-52 | PLAY paused->playing issues play; PAUSE playing->paused issues pause; END playing->ended issues pause; RESTART ended->playing issues play; the context is untouched |
| MachineProperties.TimingOnlyInPlaying | components/VideoPlayer.tsx:37-47 | `TIMING` in playing stays in playing and sets `elapsed` to the reported `currentTime` with the rest of the context unchanged; in every other state it is a no-op |
| MachineProperties.ElapsedWrittenOnlyByTiming | components/VideoPlayer.tsx:77-79 | any step that changes `elapsed` is a `TIMING` in playing, and it sets `elapsed` to that event's `currentTime` |
| MachineProperties.VideoAndDurationWrittenOnlyOnLoad | components/VideoPlayer.tsx:67-70 | outside loading no step changes `video` or `duration`; a step that changes either is `LOADED` in loading, entering `ready.paused` |
| MachineProperties.ReadyKeepsVideoAndDuration | components/VideoPlayer.tsx:27-55 | no sequence of events leaves ready, and none changes the stored element or the duration |
| MachineProperties.IgnoredEventsExamples | components/VideoPlayer.tsx:20-59 | `LOADED` in any ready sub-state does not overwrite the element or duration, `FAILED` after load is ignored, `PLAY` while loading is ignored |
| MachineProperties.UnlistedEventIsNoOp | components/VideoPlayer.tsx:20-59 | an event the transition table does not list for the current state leaves state and context unchanged and issues nothing |
| MachineProperties.ListedEventFollowsTable | components/VideoPlayer.tsx:20-59 | a listed event moves to the target the table gives for that state and event |
| MachineProperties.ListedEventChangesState | components/VideoPlayer.tsx:20-59 | every listed event other than `TIMING` changes the state |
| MachineProperties.TableIsDeterministic | components/VideoPlayer.tsx:20-59 | no two rows of the transition table share a source state and an event |
| MachineProperties.EffectsAreEntryActions | components/VideoPlayer.tsx:27-53 | except for `TIMING`, a step issues exactly the entry command of the state it enters (pause for paused and ended, play for playing), and nothing when the state does not change |
| MachineProperties.CommandsHaveATarget | components/VideoPlayer.tsx:71-76 | in a well-formed configuration, a step that issues a play or pause command has a stored media element to receive it |
| MachineProperties.RunAppend | components/VideoPlayer.tsx:12-60 | processing `a + b` is processing `a` and then `b` from where `a` left off, with the commands concatenated in order |
| MachineProperties.LoadingIgnoresUntilDecided | components/VideoPlayer.tsx:21-26 | while loading, a sequence without `LOADED` or `FAILED` changes nothing and issues nothing |
| MachineProperties.FirstLoadEventDecides | components/VideoPlayer.tsx:14-32 | from the start: with no `LOADED`/`FAILED` yet, the machine is still in the start configuration; if `FAILED` came first, it is in failure with the initial context; if `LOADED(h)` came first, it is in ready with `h` and `h.duration` stored |
| MachineProperties.ExampleRun | components/VideoPlayer.tsx:12-80 | load a 596.5 s element, then play, then a 12.3 s position, then end: this gives paused with duration 596.5 and elapsed 0, then playing, then elapsed 12.3, then ended; the commands are pause, play, the `TIMING` commands, pause |
| Controls.ControlChoice | components/VideoPlayer.tsx:113-143 | the button sends PAUSE exactly in `ready.playing`, RESTART exactly in `ready.ended`, and PLAY in every other state |
| Controls.ControlFor | components/VideoPlayer.tsx:113-143 | the switch picks a button whose event, in every ready sub-state, is one the state lists; `ControlChoice` states which button each state shows |
| Controls.Sends | components/VideoPlayer.tsx:119-137 | the `onClick` handlers only send user intents (PLAY, PAUSE or RESTART), never a media event |
| Controls.Label | components/VideoPlayer.tsx:118-136 | the `aria-label` names the event the button sends: `pause` exactly for PAUSE, `restart` exactly for RESTART, `play` exactly for PLAY |
| Controls.ControlIsHandledInReady | components/VideoPlayer.tsx:113-143 | in every ready sub-state the button's event is listed for that state; clicking it changes the state, keeps the context and issues the entry command of the new state |
| Controls.ControlIgnoredOutsideReady | components/VideoPlayer.tsx:133-141 | in loading and failure the play button is shown, and clicking it changes nothing and issues nothing |
| Controls.TwoClicksFromPaused | components/VideoPlayer.tsx:113-143 | from paused, two clicks go to playing and then back to paused, issuing play and then pause |
| TimeFormat.Decimal | components/VideoPlayer.tsx:92 | the number-to-text conversion: nonempty, all digits, no leading zero unless the number is 0, one digit exactly below 10 |
| TimeFormat.ValueOfDecimal | components/VideoPlayer.tsx:92 | the decimal text of `n` denotes `n` |
| TimeFormat.TakeLast | components/VideoPlayer.tsx:92 | `substr(-n)`: the whole of `s` when `n = 0` (the start index `-0` is `0`) or when `s` is no longer than `n`, otherwise its last `n` characters; either way the result is the end of `s` |
| TimeFormat.PadSeconds | components/VideoPlayer.tsx:92 | `('0' + seconds).substr(-2)` is always exactly two characters; `PadSecondsIsTwoDigits` gives their value |
| TimeFormat.PadSecondsIsTwoDigits | components/VideoPlayer.tsx:90-92 | for seconds below 60, `('0' + seconds).substr(-2)` is two digits denoting the seconds, the first from 0 to 5 |
| TimeFormat.FormatTime | components/VideoPlayer.tsx:88-93 | the readout is at least four characters long, with the colon third from the end (minutes before it, two seconds characters after it); `FormatTimeShape`, `FormatThenParse` and `ParseThenFormat` state its full meaning |
| TimeFormat.FormatTimeShape | components/VideoPlayer.tsx:88-93 | for whole seconds `t`, the readout has the `m:ss` shape: the part before the colon is the canonical decimal of `t / 60`, and the two digits after it, from `00` to `59`, denote `t % 60` |
| TimeFormat.ParseTime | components/VideoPlayer.tsx:88-93 | reading a readout back: the parsed seconds pad back to the two digits after the colon, canonical minutes print back as the digits before it |
| TimeFormat.ParseRejectsOnlyNonReadouts | components/VideoPlayer.tsx:88-93 | every text the parser rejects differs from the readout of every time, so the parser accepts every readout `formatTime` can produce |
| TimeFormat.FormatThenParse | components/VideoPlayer.tsx:88-93 | parsing the readout of `t` gives `(t / 60, t % 60)`, and `minutes * 60 + seconds == t` |
| TimeFormat.ParseThenFormat | components/VideoPlayer.tsx:88-93 | a readout with canonical minutes and two-digit seconds below 60 is the readout of the time it denotes |
| TimeFormat.FormatTimeInjective | components/VideoPlayer.tsx:88-93 | different whole-second times give different readouts |
| TimeFormat.FormatTimeExamples | components/VideoPlayer.tsx:88-93 | `0` reads `0:00` and `596` reads `9:56` |

## Left out

- React rendering, the `useRef`/`useMachine` hooks and the Material-UI components (lines 62-65, 95-157): presentation. The button's choice and label are modelled; its drawing is not.
- The statechart library's interpreter (scheduling of entry and assign actions, exit/re-entry rules): the table is encoded directly.
- The HTML media element and browser event dispatch (lines 98-107): replaced by the `Handle` record, explicit events, and the `currentTime` payload on `Timing`. The promise returned by `video.play()` and a possible rejection of it are not modelled.
- MachineProperties.TimingOnlyInPlaying: states the commands issued by `TIMING` only as the `timingEffects` parameter, because whether the self-transition re-runs `playVideo` depends on library semantics outside this model.
- Floating-point time: `elapsed` and `duration` are opaque reals that are only copied; NaN or infinite durations reported by a media element are not modelled.
- JavaScript number precision and exponent notation for very large times are not modelled: `Math.floor(time / 60)` is not exact integer division once `time` nears 2^53, and `minutes + ':'` prints minute counts from 10^21 up in exponent form (`1e+21`); `Decimal` always writes plain digits.
- TimeFormat.FormatTimeShape: works on whole, non-negative seconds, so `Math.floor` of fractional input and negative or non-finite input are not modelled.
- The slider (line 151): it only displays `elapsed` against `duration`, and the code promises no relation between the two.
- `pages/index.tsx` and `components/Page.tsx`: page shell, meta tags and a fixed video URL, with no logic.
