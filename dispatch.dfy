/** One tick of BcComponent::Update as a function of the component's state:
    edge detection on the two request ports, the configure and start
    sequencers they trigger, and the copy of the status to the output ports.
    BcComponent.Update is proved equal to Tick; the lemmas here state what a
    tick, and a run of ticks, promise. */
module Dispatch {
  import opened Wrappers
  import opened Protocol
  import opened Sequencers

  /** The `BUS_CONDUCTOR` port struct. The source's struct has no `RUNNING`
      member although Update writes one; it is added here. */
  datatype Port = Port(
    CONFIG_REQ: bool,         // in: request bus (re)configuration
    CONFIG_MUST_MATCH: bool,  // in: validate against the configuration file
    START_IO_REQ: bool,       // in: request start of I/O data exchange
    CONFIGURED: bool,         // out: bus is configured
    RUNNING: bool,            // out: I/O data exchange enabled
    NUM_MODULES: Word         // out: number of I/O modules detected
  )

  /** Every port member starts false or 0. */
  function DefaultPort(): (p: Port)
    ensures !p.CONFIG_REQ && !p.CONFIG_MUST_MATCH && !p.START_IO_REQ
    ensures !p.CONFIGURED && !p.RUNNING && p.NUM_MODULES == 0
  {
    Port(false, false, false, false, false, 0)
  }

  /** The fields of BcComponent that Update reads and writes, and the frames
      sent to the bus master so far. */
  datatype State = State(
    prevConfigReq: bool,
    prevStartReq: bool,
    configured: bool,
    running: bool,
    numModules: Word,
    port: Port,
    sent: seq<Frame>
  )

  /** The state at activation: no request seen yet, not configured, not
      running, no modules, default ports, nothing sent. */
  function Initial(): State {
    State(false, false, false, false, 0, DefaultPort(), [])
  }

  /** `running` implies `configured`. */
  predicate Invariant(s: State) {
    s.running ==> s.configured
  }

  /** A rising edge: high now, low on the previous tick. */
  predicate ConfigureEdge(s: State) {
    s.port.CONFIG_REQ && !s.prevConfigReq
  }

  predicate StartEdge(s: State) {
    s.port.START_IO_REQ && !s.prevStartReq
  }

  /** The result of the configure sequencer if it runs on this state. */
  function ConfigureAttempt(s: State, b: Backend, control: Oracle, file: Option<seq<string>>): ConfigResult {
    Configure(b, control, s.sent, s.port.CONFIG_MUST_MATCH, file)
  }

  /** First half of Update: on a configure edge clear `running` and
      `numModules`, then configure; remember the request in any case. */
  function ConfigurePhase(s: State, b: Backend, control: Oracle, file: Option<seq<string>>): State {
    var s1 :=
      if ConfigureEdge(s) then
        var r := ConfigureAttempt(s, b, control, file);
        s.(running := false, numModules := r.moduleCount.GetOr(0),
           configured := r.outcome.Pass?, sent := s.sent + r.frames)
      else s;
    s1.(prevConfigReq := s.port.CONFIG_REQ)
  }

  /** Second half: on a start edge start the I/O exchange if configured
      (otherwise the source only logs a warning); remember the request. */
  function StartPhase(s: State, b: Backend, control: Oracle): State {
    var s1 :=
      if StartEdge(s) && s.configured then
        var r := Start(b, control, s.sent);
        s.(running := r.outcome.Pass?, sent := s.sent + r.frames)
      else s;
    s1.(prevStartReq := s.port.START_IO_REQ)
  }

  /** Copy the status to the output ports. */
  function Publish(s: State): State {
    s.(port := s.port.(CONFIGURED := s.configured, RUNNING := s.running, NUM_MODULES := s.numModules))
  }

  /** BcComponent::Update */
  function Tick(s: State, b: Backend, control: Oracle, file: Option<seq<string>>): State {
    Publish(StartPhase(ConfigurePhase(s, b, control, file), b, control))
  }

  /** After every tick the output ports equal the internal status, the input
      ports are untouched, and both requests are remembered for the next
      edge, whether or not anything fired. */
  lemma TickPublishesAndRemembers(s: State, b: Backend, control: Oracle, file: Option<seq<string>>)
    ensures var t := Tick(s, b, control, file);
            t.port.CONFIGURED == t.configured && t.port.RUNNING == t.running &&
            t.port.NUM_MODULES == t.numModules
    ensures var t := Tick(s, b, control, file);
            t.port.CONFIG_REQ == s.port.CONFIG_REQ && t.port.CONFIG_MUST_MATCH == s.port.CONFIG_MUST_MATCH &&
            t.port.START_IO_REQ == s.port.START_IO_REQ
    ensures var t := Tick(s, b, control, file);
            t.prevConfigReq == s.port.CONFIG_REQ && t.prevStartReq == s.port.START_IO_REQ
  {
  }

  /** Without a configure edge nothing about the configuration changes; with
      one, `configured` is the sequencer's verdict, the module count is
      reply word 7 if it was read and 0 otherwise, and the sequencer's frames
      are the first frames sent in the tick. */
  lemma TickConfigure(s: State, b: Backend, control: Oracle, file: Option<seq<string>>)
    ensures var t := Tick(s, b, control, file);
            !ConfigureEdge(s) ==> t.configured == s.configured && t.numModules == s.numModules
    ensures var m := ConfigurePhase(s, b, control, file);
            !ConfigureEdge(s) ==> m.sent == s.sent && m.running == s.running
    ensures var t := Tick(s, b, control, file);
            var r := ConfigureAttempt(s, b, control, file);
            ConfigureEdge(s) ==>
              t.configured == r.outcome.Pass? && t.numModules == r.moduleCount.GetOr(0) &&
              |t.sent| >= |s.sent| + |r.frames| && t.sent[..|s.sent| + |r.frames|] == s.sent + r.frames
    ensures var t := Tick(s, b, control, file);
            ConfigureEdge(s) && !StartEdge(s) ==> !t.running && t.sent == s.sent + ConfigureAttempt(s, b, control, file).frames
  {
    var m := ConfigurePhase(s, b, control, file);
    var t := Tick(s, b, control, file);
    assert t.sent[..|m.sent|] == m.sent;
  }

  /** A start edge while not configured (after the configure half of the
      tick) sends nothing and leaves `running` as it was; while configured,
      `running` becomes the start sequencer's verdict. */
  lemma TickStartGuard(s: State, b: Backend, control: Oracle, file: Option<seq<string>>)
    ensures var m := ConfigurePhase(s, b, control, file);
            var t := Tick(s, b, control, file);
            StartEdge(s) && !m.configured ==> t.sent == m.sent && t.running == m.running
    ensures var m := ConfigurePhase(s, b, control, file);
            var t := Tick(s, b, control, file);
            StartEdge(s) && m.configured ==>
              t.running == Start(b, control, m.sent).outcome.Pass? &&
              t.sent == m.sent + Start(b, control, m.sent).frames
    ensures var m := ConfigurePhase(s, b, control, file);
            var t := Tick(s, b, control, file);
            !StartEdge(s) ==> t.sent == m.sent && t.running == m.running
  {
  }

  /** A tick with neither edge sends nothing and changes no status: it only
      remembers the two requests and copies the status to the output ports. */
  lemma TickWithoutEdges(s: State, b: Backend, control: Oracle, file: Option<seq<string>>)
    requires !ConfigureEdge(s) && !StartEdge(s)
    ensures Tick(s, b, control, file) ==
            Publish(s.(prevConfigReq := s.port.CONFIG_REQ, prevStartReq := s.port.START_IO_REQ))
  {
  }

  /** Simultaneous edges: configure runs first, and the start guard sees the
      `configured` it has just produced, within the same tick. */
  lemma TickBothEdges(s: State, b: Backend, control: Oracle, file: Option<seq<string>>)
    requires ConfigureEdge(s) && StartEdge(s)
    ensures var t := Tick(s, b, control, file);
            var c := ConfigureAttempt(s, b, control, file);
            var st := Start(b, control, s.sent + c.frames);
            t.configured == c.outcome.Pass? &&
            t.running == (c.outcome.Pass? && st.outcome.Pass?) &&
            t.sent == s.sent + c.frames + (if c.outcome.Pass? then st.frames else [])
  {
  }

  /** `running` implies `configured`, after every tick that starts from a
      state where it holds. */
  lemma TickKeepsInvariant(s: State, b: Backend, control: Oracle, file: Option<seq<string>>)
    requires Invariant(s)
    ensures Invariant(Tick(s, b, control, file))
  {
  }

  // ---------------------------------------------------------------------
  // Runs of ticks

  /** What the host writes into the input ports before a tick, and the
      configuration file as it stands on disk during that tick. */
  datatype Requests = Requests(configReq: bool, mustMatch: bool, startReq: bool, file: Option<seq<string>>)

  function Sample(s: State, q: Requests): State {
    s.(port := s.port.(CONFIG_REQ := q.configReq, CONFIG_MUST_MATCH := q.mustMatch, START_IO_REQ := q.startReq))
  }

  /** The state after one tick per element of `qs`, each preceded by the
      host writing those requests. */
  function Run(s: State, b: Backend, control: Oracle, qs: seq<Requests>): State
    decreases |qs|
  {
    if qs == [] then s
    else Run(Tick(Sample(s, qs[0]), b, control, qs[0].file), b, control, qs[1..])
  }

  /** How many ticks of the run ran the configure sequencer. */
  function ConfigureRuns(s: State, b: Backend, control: Oracle, qs: seq<Requests>): nat
    decreases |qs|
  {
    if qs == [] then 0
    else
      var s0 := Sample(s, qs[0]);
      (if ConfigureEdge(s0) then 1 else 0) + ConfigureRuns(Tick(s0, b, control, qs[0].file), b, control, qs[1..])
  }

  /** How many ticks of the run ran the start sequencer. */
  function StartRuns(s: State, b: Backend, control: Oracle, qs: seq<Requests>): nat
    decreases |qs|
  {
    if qs == [] then 0
    else
      var s0 := Sample(s, qs[0]);
      var fired := StartEdge(s0) && ConfigurePhase(s0, b, control, qs[0].file).configured;
      (if fired then 1 else 0) + StartRuns(Tick(s0, b, control, qs[0].file), b, control, qs[1..])
  }

  /** A configure request held high over a run of ticks runs the sequencer
      once, on the first tick, unless it was already high before the run. */
  lemma {:induction false} HeldConfigureRunsOnce(s: State, b: Backend, control: Oracle, qs: seq<Requests>)
    requires |qs| >= 1
    requires forall i :: 0 <= i < |qs| ==> qs[i].configReq
    ensures ConfigureRuns(s, b, control, qs) == if s.prevConfigReq then 0 else 1
    decreases |qs|
  {
    var t := Tick(Sample(s, qs[0]), b, control, qs[0].file);
    assert t.prevConfigReq;
    if |qs| > 1 {
      HeldConfigureRunsOnce(t, b, control, qs[1..]);
    }
  }

  /** A start request held high over a run of ticks runs the start
      sequencer exactly once, on the first tick, if it was low before and
      the component is configured then; otherwise never. */
  lemma {:induction false} HeldStartRunsOnce(s: State, b: Backend, control: Oracle, qs: seq<Requests>)
    requires |qs| >= 1
    requires forall i :: 0 <= i < |qs| ==> qs[i].startReq
    ensures StartRuns(s, b, control, qs) ==
            if !s.prevStartReq && ConfigurePhase(Sample(s, qs[0]), b, control, qs[0].file).configured then 1 else 0
    decreases |qs|
  {
    var t := Tick(Sample(s, qs[0]), b, control, qs[0].file);
    assert t.prevStartReq;
    if |qs| > 1 {
      HeldStartRunsNever(t, b, control, qs[1..]);
    }
  }

  /** Once the start request was already high, holding it runs nothing. */
  lemma {:induction false} HeldStartRunsNever(s: State, b: Backend, control: Oracle, qs: seq<Requests>)
    requires s.prevStartReq
    requires forall i :: 0 <= i < |qs| ==> qs[i].startReq
    ensures StartRuns(s, b, control, qs) == 0
    decreases |qs|
  {
    if qs != [] {
      var t := Tick(Sample(s, qs[0]), b, control, qs[0].file);
      assert t.prevStartReq;
      HeldStartRunsNever(t, b, control, qs[1..]);
    }
  }

  /** Both requests held high after they were already high: the ticks send
      nothing and change neither `configured`, `running` nor the module
      count. */
  lemma {:induction false} HeldRequestsAreQuiet(s: State, b: Backend, control: Oracle, qs: seq<Requests>)
    requires s.prevConfigReq && s.prevStartReq
    requires forall i :: 0 <= i < |qs| ==> qs[i].configReq && qs[i].startReq
    ensures var t := Run(s, b, control, qs);
            t.sent == s.sent && t.configured == s.configured && t.running == s.running &&
            t.numModules == s.numModules
    decreases |qs|
  {
    if qs != [] {
      var s0 := Sample(s, qs[0]);
      TickWithoutEdges(s0, b, control, qs[0].file);
      HeldRequestsAreQuiet(Tick(s0, b, control, qs[0].file), b, control, qs[1..]);
    }
  }

  /** `running` implies `configured` throughout every run from activation. */
  lemma {:induction false} RunKeepsInvariant(s: State, b: Backend, control: Oracle, qs: seq<Requests>)
    requires Invariant(s)
    ensures Invariant(Run(s, b, control, qs))
    decreases |qs|
  {
    if qs != [] {
      TickKeepsInvariant(Sample(s, qs[0]), b, control, qs[0].file);
      RunKeepsInvariant(Tick(Sample(s, qs[0]), b, control, qs[0].file), b, control, qs[1..]);
    }
  }

  lemma RunFromInitialKeepsInvariant(b: Backend, control: Oracle, qs: seq<Requests>)
    ensures Invariant(Run(Initial(), b, control, qs))
  {
    RunKeepsInvariant(Initial(), b, control, qs);
  }

  /** The edge memory starts low, so a configure request already high on the
      very first tick is a rising edge and the first frame sent is the reset. */
  lemma FirstTickConfigures(b: Backend, control: Oracle, q: Requests)
    requires q.configReq
    ensures var t := Tick(Sample(Initial(), q), b, control, q.file);
            |t.sent| >= 1 && t.sent[0] == ResetFrame(b)
  {
    ConfigureSendsInOrder(b, control, [], q.mustMatch, q.file);
  }

  /** A start request before any configure only warns: nothing is sent and
      the component stays unconfigured and stopped. */
  lemma StartBeforeConfigureOnlyWarns(b: Backend, control: Oracle, q: Requests)
    requires !q.configReq && q.startReq
    ensures var t := Tick(Sample(Initial(), q), b, control, q.file);
            t.sent == [] && !t.configured && !t.running && t.numModules == 0 && t.prevStartReq
  {
  }
}
