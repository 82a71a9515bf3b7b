/** BcComponent: the fields the source keeps, the port struct it rewrites
    every tick, and its methods. Update, its two blocks, ConfigureLocalIo
    with its command half, StartLocalIo and the validation loop are proved
    equal to the Sequencers or Dispatch function that describes them;
    ReadLocalIoStatus reports ReadStatus of the reply; SubscribeServices and
    Control state their effect directly. */
module Component {
  import opened Wrappers
  import opened Text
  import opened Protocol
  import opened Sequencers
  import opened Dispatch

  /** The outcome of ReadLocalIoStatus (the source only logs it). */
  datatype StatusReading =
    | StatusReadFailed(response: Word)  // non-zero response: nothing decoded
    | StatusTooShort(length: nat)       // the reply has no word 5
    | StatusRead(flags: IoStatus)

  /** What ReadLocalIoStatus reports for a given reply. */
  function ReadStatus(r: Reply): (s: StatusReading)
    ensures s.StatusReadFailed? <==> r.code != 0
    ensures s.StatusRead? ==> |r.data| > 5 && s.flags == DecodeStatus(r.data[5])
    ensures r.code == 0 && |r.data| > 5 ==> s.StatusRead?
  {
    if r.code != 0 then StatusReadFailed(r.code)
    else if |r.data| < 6 then StatusTooShort(|r.data|)
    else StatusRead(DecodeStatus(r.data[5]))
  }

  /** The validation loop of ConfigureLocalIo: compare the configuration
      file, line by line with all whitespace removed, against the decimal
      rendering of the reply words from index 7 on. */
  method ValidateTopology(lines: seq<string>, receiveData: seq<Word>, moduleCount: Word)
    returns (verdict: Outcome<ConfigError>)
    ensures verdict == Validate(lines, receiveData, moduleCount)
    ensures verdict == Pass <==> TopologyMatches(lines, receiveData, moduleCount)
    ensures verdict.Fail? ==> ExplainsFailure(lines, receiveData, ExpectedLines(moduleCount), verdict.error)
  {
    ValidatePassIff(lines, receiveData, moduleCount);
    ValidateFailureExplained(lines, receiveData, moduleCount);
    var index := 7;
    var expectedLines := moduleCount * 4 + 1;
    var actualLines := 0;
    while actualLines < |lines| && actualLines < expectedLines
      invariant actualLines <= |lines| && actualLines <= expectedLines
      invariant index == 7 + actualLines
      invariant ValidateFrom(lines, receiveData, expectedLines, actualLines) == Validate(lines, receiveData, moduleCount)
      decreases |lines| - actualLines
    {
      var line := StripSpace(lines[actualLines]);
      ghost var rest := ValidateFrom(lines, receiveData, expectedLines, actualLines);
      actualLines := actualLines + 1;
      if line == [] {
        assert rest == Fail(EmptyLine(actualLines));
        return Fail(EmptyLine(actualLines));
      }
      if index >= |receiveData| {
        assert rest == Fail(ReplyEndsAt(actualLines));
        return Fail(ReplyEndsAt(actualLines));
      }
      if line != DecimalString(receiveData[index]) {
        assert rest == Fail(Mismatch(actualLines, line, receiveData[index]));
        return Fail(Mismatch(actualLines, line, receiveData[index]));
      }
      assert rest == ValidateFrom(lines, receiveData, expectedLines, actualLines);
      index := index + 1;
    }
    if actualLines != expectedLines {
      return Fail(LineCount(expectedLines, actualLines));
    }
    return Pass;
  }

  lemma AppendTwo<T>(h: seq<T>, a: T, b: T)
    ensures h + [a] + [b] == h + [a, b]
  {
  }

  lemma AppendThree<T>(h: seq<T>, a: T, b: T, c: T)
    ensures h + [a] + [b] + [c] == h + [a, b, c]
    ensures h + [a] + [b] == h + [a, b]
  {
  }

  class BcComponent {
    var prevConfigReq: bool
    var prevStartReq: bool
    var interbus: bool
    var allSystemsGo: bool
    var configured: bool
    /** Read and written by Update but not declared by the source's header;
        it starts false like the other status fields. */
    var running: bool
    var numModules: Word
    /** The `BUS_CONDUCTOR` port struct. */
    var port: Port
    /** Every frame sent to the bus master, oldest first. */
    var sent: seq<Frame>

    /** `AxioControl` and `InterbusControl` of the two services. */
    const axioControl: Oracle
    const interbusControl: Oracle

    /** The fields Update works on. */
    function State(): State
      reads this`prevConfigReq, this`prevStartReq, this`configured, this`running,
            this`numModules, this`port, this`sent
    {
      Dispatch.State(prevConfigReq, prevStartReq, configured, running, numModules, port, sent)
    }

    function ActiveBackend(): Backend
      reads this`interbus
    {
      if interbus then Interbus else Axioline
    }

    /** The service the component talks to. */
    function ActiveControl(): Oracle
      reads this`interbus
    {
      if interbus then interbusControl else axioControl
    }

    ghost predicate Valid()
      reads this
    {
      Invariant(State())
    }

    /** The field initialisers of the header: all flags false, no modules,
        default ports; nothing sent yet. */
    constructor (axio: Oracle, ibus: Oracle)
      ensures State() == Initial() && Valid()
      ensures !interbus && !allSystemsGo
      ensures axioControl == axio && interbusControl == ibus
    {
      prevConfigReq, prevStartReq := false, false;
      interbus, allSystemsGo := false, false;
      configured, running, numModules := false, false, 0;
      port := DefaultPort();
      sent := [];
      axioControl, interbusControl := axio, ibus;
    }

    /** Pick the backend: Axioline whenever its service is available,
        otherwise Interbus if that one is. */
    method SubscribeServices(axioAvailable: bool, interbusAvailable: bool)
      modifies this`interbus, this`allSystemsGo
      ensures axioAvailable ==> !interbus && allSystemsGo
      ensures !axioAvailable && interbusAvailable ==> interbus && allSystemsGo
      ensures !axioAvailable && !interbusAvailable ==> !allSystemsGo && interbus == old(interbus)
    {
      if axioAvailable {
        interbus := false;
        allSystemsGo := true;
      } else if interbusAvailable {
        interbus := true;
        allSystemsGo := true;
      } else {
        allSystemsGo := false;
      }
    }

    /** The host writes the input members of the port struct between ticks
        (the file member of `q` is what the next Update reads). */
    method WriteRequests(q: Requests)
      requires Valid()
      modifies this`port
      ensures Valid() && State() == Sample(old(State()), q)
    {
      port := port.(CONFIG_REQ := q.configReq, CONFIG_MUST_MATCH := q.mustMatch, START_IO_REQ := q.startReq);
    }

    /** `InterbusControl` or `AxioControl`, whichever backend is in use. */
    method Control(sendData: Frame) returns (reply: Reply)
      modifies this`sent
      ensures reply == ActiveControl()(old(sent), sendData)
      ensures sent == old(sent) + [sendData]
    {
      if interbus {
        reply := interbusControl(sent, sendData);
      } else {
        reply := axioControl(sent, sendData);
      }
      sent := sent + [sendData];
    }

    /** One tick of the worker thread: the configure request, then the start
        request, then the copy of the status to the output ports. */
    method Update(configFile: Option<seq<string>>)
      requires Valid()
      modifies this`prevConfigReq, this`prevStartReq, this`configured, this`running,
               this`numModules, this`port, this`sent
      ensures State() == Tick(old(State()), ActiveBackend(), ActiveControl(), configFile)
      ensures Valid()
    {
      ghost var s := State();
      ghost var b := ActiveBackend();
      ghost var control := ActiveControl();
      CheckConfigRequest(configFile);
      ghost var s1 := State();
      assert s1 == ConfigurePhase(s, b, control, configFile);
      CheckStartRequest();
      ghost var s2 := State();
      assert s2 == StartPhase(s1, b, control);
      port := port.(CONFIGURED := configured, RUNNING := running, NUM_MODULES := numModules);
      assert State() == Publish(s2);
      TickKeepsInvariant(s, b, control, configFile);
    }

    /** The first block of Update: on a rising edge of CONFIG_REQ clear the
        status and configure. */
    method CheckConfigRequest(configFile: Option<seq<string>>)
      modifies this`prevConfigReq, this`configured, this`running, this`numModules, this`sent
      ensures State() == ConfigurePhase(old(State()), ActiveBackend(), ActiveControl(), configFile)
    {
      var configReq := port.CONFIG_REQ;
      if configReq && !prevConfigReq {
        running := false;
        numModules := 0;
        configured := ConfigureLocalIo(port.CONFIG_MUST_MATCH, configFile);
      }
      prevConfigReq := configReq;
    }

    /** The second block of Update: on a rising edge of START_IO_REQ start
        the I/O exchange if configured; otherwise the source only logs a
        warning. */
    method CheckStartRequest()
      modifies this`prevStartReq, this`running, this`sent
      ensures State() == StartPhase(old(State()), ActiveBackend(), ActiveControl())
    {
      var startReq := port.START_IO_REQ;
      if startReq && !prevStartReq {
        if configured {
          running := StartLocalIo();
        }
      }
      prevStartReq := startReq;
    }

    /** Reset the driver, create the configuration, read it back and take
        the module count from reply word 7; then, if asked, validate the
        configuration file against the reply. */
    method ConfigureLocalIo(validateConfig: bool, configFile: Option<seq<string>>) returns (ok: bool)
      modifies this`numModules, this`sent
      ensures var r := Configure(ActiveBackend(), ActiveControl(), old(sent), validateConfig, configFile);
              ok == r.outcome.Pass? && sent == old(sent) + r.frames &&
              numModules == r.moduleCount.GetOr(old(numModules))
    {
      var accepted, receiveData := SendConfigurationCommands();
      if !accepted {
        return false;
      }
      if |receiveData| < 8 {
        return false;
      }
      numModules := receiveData[7];

      if validateConfig {
        if configFile.None? {
          return false;
        }
        var verdict := ValidateTopology(configFile.value, receiveData, numModules);
        if verdict.Fail? {
          return false;
        }
      }
      return true;
    }

    /** The three bus commands of ConfigureLocalIo. The 100-word send buffer
        is reused for every frame. */
    method SendConfigurationCommands() returns (accepted: bool, receiveData: seq<Word>)
      modifies this`sent
      ensures var c := ReadBackConfiguration(ActiveBackend(), ActiveControl(), old(sent));
              accepted == c.outcome.Pass? && sent == old(sent) + c.frames &&
              (accepted ==> receiveData == c.data)
    {
      ghost var b := ActiveBackend();
      ghost var history := sent;
      var sendData := new Word[FrameSize](_ => 0);
      assert sendData[..] == Blank();

      // Reset driver
      sendData[0] := if interbus then 0x1303 else 0x1703;
      sendData[1] := 0x0000;
      var frame1 := sendData[..];
      assert frame1 == ResetFrame(b);
      var reply := Control(frame1);
      if reply.code != 0 {
        return false, [];
      }

      // Create configuration
      sendData[0] := 0x0710;
      sendData[1] := 0x0001;
      sendData[2] := 0x0001;
      var frame2 := sendData[..];
      assert frame2 == CreateFrame(b);
      reply := Control(frame2);
      AppendTwo(history, frame1, frame2);
      if reply.code != 0 {
        return false, [];
      }

      // Read configuration
      sendData[0] := 0x030B;
      sendData[1] := 0x0001;
      sendData[2] := 0x0003;
      var frame3 := sendData[..];
      assert frame3 == ReadConfigFrame(b);
      reply := Control(frame3);
      AppendThree(history, frame1, frame2, frame3);
      if reply.code != 0 {
        return false, [];
      }
      return true, reply.data;
    }

    /** On Axioline load the process-data mapping; then enable I/O data
        output. The enable frame is written over the load-mapping frame. */
    method StartLocalIo() returns (ok: bool)
      modifies this`sent
      ensures var r := Start(ActiveBackend(), ActiveControl(), old(sent));
              ok == r.outcome.Pass? && sent == old(sent) + r.frames
    {
      ghost var b := ActiveBackend();
      ghost var history := sent;
      var sendData := new Word[FrameSize](_ => 0);
      assert sendData[..] == Blank();
      var reply;
      if !interbus {
        // Load process data mapping
        sendData[0] := 0x0728;
        sendData[1] := 0x0004;
        sendData[2] := 0x3000;
        sendData[3] := 0x0001;
        sendData[4] := 0x0021;
        sendData[5] := 0x0000;
        var frame1 := sendData[..];
        assert frame1 == LoadMappingFrame();
        reply := Control(frame1);
        if reply.code != 0 {
          return false;
        }
      }

      // Enable I/O data output
      sendData[0] := 0x0701;
      sendData[1] := 0x0001;
      sendData[2] := 0x0001;
      var frame2 := sendData[..];
      assert frame2 == EnableFrame(b);
      reply := Control(frame2);
      if !interbus {
        AppendTwo(history, LoadMappingFrame(), frame2);
      }
      if reply.code != 0 {
        return false;
      }
      return true;
    }

    /** Read the diagnostic status and decode word 5 of the reply. No status
        field of the component changes; only the frame is sent. */
    method ReadLocalIoStatus() returns (status: StatusReading)
      modifies this`sent
      ensures sent == old(sent) + [StatusFrame()]
      ensures status == ReadStatus(ActiveControl()(old(sent), StatusFrame()))
      ensures configured == old(configured) && running == old(running) && numModules == old(numModules)
    {
      var sendData := new Word[FrameSize](_ => 0);
      assert sendData[..] == Blank();
      sendData[0] := 0x0351;
      sendData[1] := 0x0002;
      sendData[2] := 0x0001;
      sendData[3] := 0x0104;
      assert sendData[..] == StatusFrame();
      var reply := Control(sendData[..]);
      if reply.code != 0 {
        return StatusReadFailed(reply.code);
      }
      if |reply.data| < 6 {
        return StatusTooShort(|reply.data|);
      }
      return StatusRead(DecodeStatus(reply.data[5]));
    }
  }
}
