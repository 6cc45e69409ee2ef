/**
 The playback state machine of the video player (`videoMachine` in
 components/VideoPlayer.tsx), written as a pure, total step function.

 The statechart has a `loading` state, a composite `ready` state with the
 sub-states `paused` (initial), `playing` and `ended`, and a final `failure`
 state. Its context holds the media element, the elapsed time and the
 duration. Entry actions that command the media element are returned as an
 explicit list of effects instead of being run as callbacks.
 */
module VideoMachine {
  import opened Wrappers

  /** The media element, as far as the machine looks at it when it is stored:
      its total length in seconds. */
  datatype Handle = Handle(duration: real)

  /** The three sub-states of `ready`. */
  datatype Sub = Paused | Playing | Ended

  datatype State = Loading | Ready(sub: Sub) | Failure

  /** The machine's extended state; `video` is `null` until the media loads. */
  datatype Context = Context(video: Option<Handle>, elapsed: real, duration: real)

  datatype Config = Config(state: State, ctx: Context)

  /** Events raised by the media element (`Loaded`, `Failed`, `End`, `Timing`)
      and by the control button (`Play`, `Pause`, `Restart`). `Timing` carries
      the `currentTime` the stored media element reports when it is raised. */
  datatype Event =
    | Loaded(video: Handle)
    | Failed
    | Play
    | Pause
    | Timing(currentTime: real)
    | End
    | Restart

  /** Commands issued to the stored media element by the entry actions
      `playVideo` and `pauseVideo`. */
  datatype Effect = PlayVideo | PauseVideo

  datatype Outcome = Outcome(config: Config, effects: seq<Effect>)

  /** The name an event is sent under, without its payload. */
  datatype EventKind = LOADED | FAILED | PLAY | PAUSE | TIMING | END | RESTART

  function Kind(e: Event): EventKind
  {
    match e
    case Loaded(_) => LOADED
    case Failed => FAILED
    case Play => PLAY
    case Pause => PAUSE
    case Timing(_) => TIMING
    case End => END
    case Restart => RESTART
  }

  const InitialContext: Context := Context(None, 0.0, 0.0)

  /** The machine starts in `loading` with an empty context. */
  const Init: Config := Config(Loading, InitialContext)

  /** One event. `timingEffects` are the commands the `TIMING` self-transition
      issues: whether it re-enters `playing` (and so runs `playVideo` again)
      depends on the statechart library's transition semantics, which are not
      part of this model. An event the current state does not list is
      ignored: nothing changes and no command is issued. */
  function Step(timingEffects: seq<Effect>, c: Config, e: Event): (r: Outcome)
    ensures WellFormed(c) ==> WellFormed(r.config)
  {
    match (c.state, e)
    // entering `ready` runs `setVideo`, then `paused` runs `pauseVideo`
    case (Loading, Loaded(h)) =>
      Outcome(Config(Ready(Paused), c.ctx.(video := Some(h), duration := h.duration)), [PauseVideo])
    case (Loading, Failed) =>
      Outcome(Config(Failure, c.ctx), [])
    case (Ready(Paused), Play) =>
      Outcome(Config(Ready(Playing), c.ctx), [PlayVideo])
    case (Ready(Playing), Pause) =>
      Outcome(Config(Ready(Paused), c.ctx), [PauseVideo])
    // `setElapsed`
    case (Ready(Playing), Timing(t)) =>
      Outcome(Config(Ready(Playing), c.ctx.(elapsed := t)), timingEffects)
    case (Ready(Playing), End) =>
      Outcome(Config(Ready(Ended), c.ctx), [PauseVideo])
    case (Ready(Ended), Restart) =>
      Outcome(Config(Ready(Playing), c.ctx), [PlayVideo])
    case _ =>
      Outcome(c, [])
  }

  /** A sequence of events, processed one at a time; the commands are
      collected in the order they are issued. Every configuration reached
      from a well-formed one, and so from `Init`, is well formed. */
  function Run(timingEffects: seq<Effect>, c: Config, es: seq<Event>): (r: Outcome)
    ensures WellFormed(c) ==> WellFormed(r.config)
    decreases |es|
  {
    if |es| == 0 then Outcome(c, [])
    else
      var first := Step(timingEffects, c, es[0]);
      var rest := Run(timingEffects, first.config, es[1..]);
      Outcome(rest.config, first.effects + rest.effects)
  }

  /** One line of the statechart's transition table: in state `from`, the
      event named `on` leads to `to`. */
  datatype Row = Row(from: State, on: EventKind, to: State)

  /** The `on` maps of the statechart, read as a table. `ready` itself and
      `failure` list no events. */
  const Table: seq<Row> := [
    Row(Loading, LOADED, Ready(Paused)),
    Row(Loading, FAILED, Failure),
    Row(Ready(Paused), PLAY, Ready(Playing)),
    Row(Ready(Playing), PAUSE, Ready(Paused)),
    Row(Ready(Playing), TIMING, Ready(Playing)),
    Row(Ready(Playing), END, Ready(Ended)),
    Row(Ready(Ended), RESTART, Ready(Playing))
  ]

  /** True iff the table lists event `k` for state `s`. */
  predicate Handles(s: State, k: EventKind)
  {
    exists i :: 0 <= i < |Table| && Table[i].from == s && Table[i].on == k
  }

  /** The commands the entry action of each state issues: one for each
      sub-state of `ready`, none for `loading` and `failure`. */
  function EntryEffects(s: State): (fx: seq<Effect>)
    ensures |fx| == if s.Ready? then 1 else 0
  {
    match s
    case Ready(Paused) => [PauseVideo]
    case Ready(Playing) => [PlayVideo]
    case Ready(Ended) => [PauseVideo]
    case _ => []
  }

  /** What every configuration the machine can reach satisfies: before the
      media loads and after it fails the context is the initial one; in
      `ready` a media element is stored and the duration is its duration. */
  predicate WellFormed(c: Config)
  {
    match c.state
    case Loading => c.ctx == InitialContext
    case Failure => c.ctx == InitialContext
    case Ready(_) => c.ctx.video.Some? && c.ctx.duration == c.ctx.video.value.duration
  }

  /** The first event of `es` that `loading` reacts to, if any: a `Loaded`
      or `Failed` at some position with no `Loaded` or `Failed` before it. */
  function FirstLoadEvent(es: seq<Event>): (r: Option<Event>)
    ensures r.Some? ==> r.value.Loaded? || r.value.Failed?
    ensures r.Some? ==>
      exists i :: 0 <= i < |es| && es[i] == r.value
        && forall j :: 0 <= j < i ==> !es[j].Loaded? && !es[j].Failed?
    ensures r.None? ==> forall i :: 0 <= i < |es| ==> !es[i].Loaded? && !es[i].Failed?
    decreases |es|
  {
    if |es| == 0 then None
    else if es[0].Loaded? || es[0].Failed? then Some(es[0])
    else
      var r := FirstLoadEvent(es[1..]);
      if r.Some? then
        var i :| 0 <= i < |es| - 1 && es[1..][i] == r.value
          && forall j :: 0 <= j < i ==> !es[1..][j].Loaded? && !es[1..][j].Failed?;
        assert es[i + 1] == r.value;
        assert forall j :: 0 <= j < i + 1 ==> !es[j].Loaded? && !es[j].Failed? by {
          forall j | 0 <= j < i + 1
            ensures !es[j].Loaded? && !es[j].Failed?
          {
            if j > 0 { assert es[j] == es[1..][j - 1]; }
          }
        }
        r
      else r
  }
}
