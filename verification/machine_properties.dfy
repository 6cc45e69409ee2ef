/**
 Properties of the playback state machine: single steps against the
 transition table and the entry actions, the context fields each step may
 write, and facts about whole sequences of events.
 */
module MachineProperties {
  import opened Wrappers
  import opened VideoMachine

  /* ---------------------------------------------------------------------- */
  /* Single steps                                                           */
  /* ---------------------------------------------------------------------- */

  /** `LOADED` in `loading` enters `ready.paused`, stores the media element and
      its duration, leaves `elapsed` alone and pauses the element. */
  lemma LoadedFromLoading(fx: seq<Effect>, c: Config, h: Handle)
    requires c.state == Loading
    ensures Step(fx, c, Loaded(h)).config.state == Ready(Paused)
    ensures Step(fx, c, Loaded(h)).config.ctx == Context(Some(h), c.ctx.elapsed, h.duration)
    ensures Step(fx, c, Loaded(h)).effects == [PauseVideo]
  {
  }

  /** From the initial configuration, `LOADED` gives `elapsed = 0` and the
      element's duration. */
  lemma LoadedFromInit(fx: seq<Effect>, h: Handle)
    ensures Init.state == Loading && Init.ctx.elapsed == 0.0 && Init.ctx.duration == 0.0
    ensures Init.ctx.video == None && WellFormed(Init)
    ensures Step(fx, Init, Loaded(h)) == Outcome(Config(Ready(Paused), Context(Some(h), 0.0, h.duration)), [PauseVideo])
  {
  }

  /** `FAILED` in `loading` enters `failure` and issues nothing. */
  lemma FailedFromLoading(fx: seq<Effect>, c: Config)
    requires c.state == Loading
    ensures Step(fx, c, Failed) == Outcome(Config(Failure, c.ctx), [])
  {
  }

  /** `failure` is final: every event leaves the configuration unchanged. */
  lemma FailureIsFinal(fx: seq<Effect>, c: Config, e: Event)
    requires c.state == Failure
    ensures Step(fx, c, e) == Outcome(c, [])
  {
  }

  /** The button and end-of-stream transitions, each with the entry action of
      the state it enters. */
  lemma UserTransitions(fx: seq<Effect>, ctx: Context)
    ensures Step(fx, Config(Ready(Paused), ctx), Play) == Outcome(Config(Ready(Playing), ctx), [PlayVideo])
    ensures Step(fx, Config(Ready(Playing), ctx), Pause) == Outcome(Config(Ready(Paused), ctx), [PauseVideo])
    ensures Step(fx, Config(Ready(Playing), ctx), End) == Outcome(Config(Ready(Ended), ctx), [PauseVideo])
    ensures Step(fx, Config(Ready(Ended), ctx), Restart) == Outcome(Config(Ready(Playing), ctx), [PlayVideo])
  {
  }

  /** `TIMING` is handled only in `ready.playing`, where it stays in
      `playing`, copies the reported position into `elapsed` and changes
      nothing else in the context; elsewhere it is ignored. */
  lemma TimingOnlyInPlaying(fx: seq<Effect>, c: Config, t: real)
    ensures c.state == Ready(Playing) ==>
      Step(fx, c, Timing(t)).config == Config(Ready(Playing), c.ctx.(elapsed := t))
      && Step(fx, c, Timing(t)).effects == fx
    ensures c.state != Ready(Playing) ==> Step(fx, c, Timing(t)) == Outcome(c, [])
  {
  }

  /** `elapsed` changes only through `TIMING` in `playing`. */
  lemma ElapsedWrittenOnlyByTiming(fx: seq<Effect>, c: Config, e: Event)
    ensures Step(fx, c, e).config.ctx.elapsed != c.ctx.elapsed ==>
      c.state == Ready(Playing) && e.Timing? && Step(fx, c, e).config.ctx.elapsed == e.currentTime
  {
  }

  /** `video` and `duration` are written only by the `loading -> ready`
      transition, and that transition writes them from the loaded element. */
  lemma VideoAndDurationWrittenOnlyOnLoad(fx: seq<Effect>, c: Config, e: Event)
    ensures c.state != Loading ==>
      Step(fx, c, e).config.ctx.video == c.ctx.video
      && Step(fx, c, e).config.ctx.duration == c.ctx.duration
    ensures (Step(fx, c, e).config.ctx.video != c.ctx.video
             || Step(fx, c, e).config.ctx.duration != c.ctx.duration) ==>
      c.state == Loading && e.Loaded? && Step(fx, c, e).config.state == Ready(Paused)
  {
  }

  /** Instances of ignored events: a second `LOADED` does not overwrite the
      duration, `FAILED` after load is ignored, `PLAY` while loading is ignored. */
  lemma IgnoredEventsExamples(fx: seq<Effect>, sub: Sub, ctx: Context, h: Handle)
    ensures Step(fx, Config(Ready(sub), ctx), Loaded(h)) == Outcome(Config(Ready(sub), ctx), [])
    ensures Step(fx, Config(Ready(sub), ctx), Failed) == Outcome(Config(Ready(sub), ctx), [])
    ensures Step(fx, Config(Loading, ctx), Play) == Outcome(Config(Loading, ctx), [])
  {
  }

  /* ---------------------------------------------------------------------- */
  /* The step function against the transition table                          */
  /* ---------------------------------------------------------------------- */

  /** An event the table does not list for the current state is a no-op. */
  lemma UnlistedEventIsNoOp(fx: seq<Effect>, c: Config, e: Event)
    ensures !Handles(c.state, Kind(e)) ==> Step(fx, c, e) == Outcome(c, [])
  {
    match (c.state, e)
    case (Loading, Loaded(_)) => assert Table[0].from == c.state && Table[0].on == Kind(e);
    case (Loading, Failed) => assert Table[1].from == c.state && Table[1].on == Kind(e);
    case (Ready(Paused), Play) => assert Table[2].from == c.state && Table[2].on == Kind(e);
    case (Ready(Playing), Pause) => assert Table[3].from == c.state && Table[3].on == Kind(e);
    case (Ready(Playing), Timing(_)) => assert Table[4].from == c.state && Table[4].on == Kind(e);
    case (Ready(Playing), End) => assert Table[5].from == c.state && Table[5].on == Kind(e);
    case (Ready(Ended), Restart) => assert Table[6].from == c.state && Table[6].on == Kind(e);
    case _ =>
  }

  /** A listed event moves to the row's target state. */
  lemma ListedEventFollowsTable(fx: seq<Effect>, c: Config, e: Event, i: nat)
    requires i < |Table| && Table[i].from == c.state && Table[i].on == Kind(e)
    ensures Step(fx, c, e).config.state == Table[i].to
  {
  }

  /** Every listed event other than `TIMING` changes the state, so a step
      that changes nothing was unlisted (or a `TIMING` that read the same
      position). */
  lemma ListedEventChangesState(fx: seq<Effect>, c: Config, e: Event)
    requires Handles(c.state, Kind(e)) && !e.Timing?
    ensures Step(fx, c, e).config.state != c.state
  {
  }

  /** Outside `TIMING`, the commands a step issues are exactly the entry
      actions of the state it enters, and none when the state stays. */
  lemma EffectsAreEntryActions(fx: seq<Effect>, c: Config, e: Event)
    requires !e.Timing?
    ensures Step(fx, c, e).effects ==
      (if Step(fx, c, e).config.state != c.state then EntryEffects(Step(fx, c, e).config.state) else [])
  {
  }

  /** No two rows of the table share a state and an event. */
  lemma TableIsDeterministic(i: nat, j: nat)
    requires i < |Table| && j < |Table| && i != j
    ensures Table[i].from != Table[j].from || Table[i].on != Table[j].on
  {
  }

  /* ---------------------------------------------------------------------- */
  /* Reachable configurations                                               */
  /* ---------------------------------------------------------------------- */

  /** In a well-formed configuration, a command is only ever issued when a
      media element is stored to receive it. */
  lemma CommandsHaveATarget(fx: seq<Effect>, c: Config, e: Event)
    requires WellFormed(c)
    ensures |Step(fx, c, e).effects| > 0 ==> Step(fx, c, e).config.ctx.video.Some?
  {
  }

  /** Running the events one after another. */
  lemma {:induction false} RunAppend(fx: seq<Effect>, c: Config, a: seq<Event>, b: seq<Event>)
    ensures Run(fx, c, a + b).config == Run(fx, Run(fx, c, a).config, b).config
    ensures Run(fx, c, a + b).effects == Run(fx, c, a).effects + Run(fx, Run(fx, c, a).config, b).effects
    decreases |a|
  {
    if |a| == 0 {
      assert a + b == b;
    } else {
      assert (a + b)[0] == a[0];
      assert (a + b)[1..] == a[1..] + b;
      var first := Step(fx, c, a[0]);
      RunAppend(fx, first.config, a[1..], b);
    }
  }

  /** Once failed, no sequence of events changes anything or issues a command. */
  lemma {:induction false} FailureIsFinalForever(fx: seq<Effect>, c: Config, es: seq<Event>)
    requires c.state == Failure
    ensures Run(fx, c, es) == Outcome(c, [])
    decreases |es|
  {
    if |es| > 0 {
      FailureIsFinal(fx, c, es[0]);
      FailureIsFinalForever(fx, c, es[1..]);
    }
  }

  /** No sequence of events leaves `ready`, and none changes the stored media
      element or the duration: they are set once, at load. */
  lemma {:induction false} ReadyKeepsVideoAndDuration(fx: seq<Effect>, c: Config, es: seq<Event>)
    requires c.state.Ready?
    ensures Run(fx, c, es).config.state.Ready?
    ensures Run(fx, c, es).config.ctx.video == c.ctx.video
    ensures Run(fx, c, es).config.ctx.duration == c.ctx.duration
    decreases |es|
  {
    if |es| > 0 {
      VideoAndDurationWrittenOnlyOnLoad(fx, c, es[0]);
      ReadyKeepsVideoAndDuration(fx, Step(fx, c, es[0]).config, es[1..]);
    }
  }

  /** While loading, events other than `LOADED` and `FAILED` are ignored. */
  lemma {:induction false} LoadingIgnoresUntilDecided(fx: seq<Effect>, c: Config, es: seq<Event>)
    requires c.state == Loading
    requires FirstLoadEvent(es).None?
    ensures Run(fx, c, es) == Outcome(c, [])
    decreases |es|
  {
    if |es| > 0 {
      LoadingIgnoresUntilDecided(fx, c, es[1..]);
    }
  }

  /** From the start, the first `LOADED` or `FAILED` decides the machine's
      fate: none yet means still loading with the initial context; `FAILED`
      first means failure with the initial context; `LOADED(h)` first means
      `ready` for good, holding `h` and its duration. */
  lemma {:induction false} FirstLoadEventDecides(fx: seq<Effect>, es: seq<Event>)
    ensures FirstLoadEvent(es).None? ==> Run(fx, Init, es).config == Init
    ensures FirstLoadEvent(es) == Some(Failed) ==> Run(fx, Init, es).config == Config(Failure, InitialContext)
    ensures FirstLoadEvent(es).Some? && FirstLoadEvent(es).value.Loaded? ==>
      Run(fx, Init, es).config.state.Ready?
      && Run(fx, Init, es).config.ctx.video == Some(FirstLoadEvent(es).value.video)
      && Run(fx, Init, es).config.ctx.duration == FirstLoadEvent(es).value.video.duration
    decreases |es|
  {
    if |es| == 0 {
    } else if es[0].Loaded? {
      ReadyKeepsVideoAndDuration(fx, Step(fx, Init, es[0]).config, es[1..]);
    } else if es[0].Failed? {
      FailureIsFinalForever(fx, Step(fx, Init, es[0]).config, es[1..]);
    } else {
      FirstLoadEventDecides(fx, es[1..]);
    }
  }

  /** The example run: load a 596.5 s video, play, receive a position of
      12.3 s, reach the end. */
  lemma ExampleRun(fx: seq<Effect>)
    ensures Run(fx, Init, [Loaded(Handle(596.5))]).config == Config(Ready(Paused), Context(Some(Handle(596.5)), 0.0, 596.5))
    ensures Run(fx, Init, [Loaded(Handle(596.5)), Play]).config.state == Ready(Playing)
    ensures Run(fx, Init, [Loaded(Handle(596.5)), Play, Timing(12.3)]).config == Config(Ready(Playing), Context(Some(Handle(596.5)), 12.3, 596.5))
    ensures Run(fx, Init, [Loaded(Handle(596.5)), Play, Timing(12.3), End]).config.state == Ready(Ended)
    ensures Run(fx, Init, [Loaded(Handle(596.5)), Play, Timing(12.3), End]).effects == [PauseVideo, PlayVideo] + fx + [PauseVideo]
  {
    var h := Handle(596.5);
    var es := [Loaded(h), Play, Timing(12.3), End];
    RunAppend(fx, Init, [Loaded(h)], [Play, Timing(12.3), End]);
    assert [Loaded(h)] + [Play, Timing(12.3), End] == es;
  }
}
