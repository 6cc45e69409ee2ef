/**
 The single control button of the video player. Which button is shown is
 decided from the machine's state: the pause button while playing, the
 restart button once the video has ended, and the play button in every other
 state, including `loading` and `failure`.
 */
module Controls {
  import opened VideoMachine

  datatype Control = PauseControl | RestartControl | PlayControl

  /** The button shown in state `s`; playing is tested before ended. In
      every `ready` sub-state the button sends an event that state lists. */
  function ControlFor(s: State): (b: Control)
    ensures s.Ready? ==> Handles(s, Kind(Sends(b)))
  {
    if s == Ready(Playing) then
      assert Table[3].from == s && Table[3].on == PAUSE;
      PauseControl
    else if s == Ready(Ended) then
      assert Table[6].from == s && Table[6].on == RESTART;
      RestartControl
    else if s.Ready? then
      assert s.sub.Paused? && Table[2].from == s && Table[2].on == PLAY;
      PlayControl
    else
      PlayControl
  }

  /** The event a click on the button sends: always a user intent, never one
      of the media element's events. */
  function Sends(b: Control): (e: Event)
    ensures Kind(e) == PLAY || Kind(e) == PAUSE || Kind(e) == RESTART
  {
    match b
    case PauseControl => Pause
    case RestartControl => Restart
    case PlayControl => Play
  }

  /** The button's accessible label, which names the event a click sends. */
  function Label(b: Control): (l: string)
    ensures l == "pause" <==> Sends(b) == Pause
    ensures l == "restart" <==> Sends(b) == Restart
    ensures l == "play" <==> Sends(b) == Play
  {
    match b
    case PauseControl => "pause"
    case RestartControl => "restart"
    case PlayControl => "play"
  }

  /** Pause exactly while playing, restart exactly once ended, play otherwise. */
  lemma ControlChoice(s: State)
    ensures Sends(ControlFor(s)) == Pause <==> s == Ready(Playing)
    ensures Sends(ControlFor(s)) == Restart <==> s == Ready(Ended)
    ensures Sends(ControlFor(s)) == Play <==> s != Ready(Playing) && s != Ready(Ended)
  {
  }

  /** In every `ready` sub-state the button's event is one the state lists,
      and clicking it changes the state and issues the entry command of the
      state it leads to. */
  lemma ControlIsHandledInReady(fx: seq<Effect>, c: Config)
    requires c.state.Ready?
    ensures Handles(c.state, Kind(Sends(ControlFor(c.state))))
    ensures Step(fx, c, Sends(ControlFor(c.state))).config.state != c.state
    ensures Step(fx, c, Sends(ControlFor(c.state))).config.ctx == c.ctx
    ensures Step(fx, c, Sends(ControlFor(c.state))).effects
         == EntryEffects(Step(fx, c, Sends(ControlFor(c.state))).config.state)
  {
    match c.state.sub
    case Paused => assert Table[2].from == c.state && Table[2].on == PLAY;
    case Playing => assert Table[3].from == c.state && Table[3].on == PAUSE;
    case Ended => assert Table[6].from == c.state && Table[6].on == RESTART;
  }

  /** Before the media loads and after it fails, the play button is shown and
      clicking it does nothing. */
  lemma ControlIgnoredOutsideReady(fx: seq<Effect>, c: Config)
    requires !c.state.Ready?
    ensures Label(ControlFor(c.state)) == "play"
    ensures Step(fx, c, Sends(ControlFor(c.state))) == Outcome(c, [])
  {
  }

  /** Clicking the button once in `paused` and once more in `playing`
      returns to `paused`, having started and then stopped the element. */
  lemma TwoClicksFromPaused(fx: seq<Effect>, ctx: Context)
    ensures var c := Config(Ready(Paused), ctx);
      var c1 := Step(fx, c, Sends(ControlFor(c.state))).config;
      c1.state == Ready(Playing)
      && Run(fx, c, [Sends(ControlFor(c.state)), Sends(ControlFor(c1.state))]) == Outcome(c, [PlayVideo, PauseVideo])
  {
    var c := Config(Ready(Paused), ctx);
    var c1 := Step(fx, c, Play).config;
    assert c1 == Config(Ready(Playing), ctx);
    assert [Play, Pause][1..] == [Pause];
  }
}
