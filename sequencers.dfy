/** What the configuration sequencer, the topology validator and the start
    sequencer of BcComponent do, as functions of the backend, the bus-master
    service and the frames sent before. The methods of BcComponent are proved
    equal to these functions; the lemmas here state what they promise. */
module Sequencers {
  import opened Wrappers
  import opened Text
  import opened Protocol

  /** Why a configure attempt returned false. Each is one log message of the
      source, except ReplyEndsAt, which stands for the unchecked read of
      the reply at src/BcComponent.cpp:226. */
  datatype ConfigError =
    | ResetFailed(response: Word)           // "Reset driver failed"
    | CreateFailed(response: Word)          // "Create configuration failed"
    | ReadFailed(response: Word)            // "Read local I/O configuration failed"
    | ReplyTooShort(length: nat)            // read-configuration reply under 8 words
    | FileUnreadable                        // the configuration file cannot be opened or read
    | EmptyLine(line: nat)                  // 1-based line that is empty once stripped
    | Mismatch(line: nat, text: string, word: Word)
    | ReplyEndsAt(line: nat)                // the line has no reply word to compare with
    | LineCount(expected: nat, actual: nat) // fewer lines than the topology needs

  /** Why a start attempt returned false. */
  datatype StartError =
    | LoadMappingFailed(response: Word)
    | EnableFailed(response: Word)

  /** The frames one sequencer sent, in order, and how it ended. */
  datatype ConfigResult = ConfigResult(outcome: Outcome<ConfigError>, moduleCount: Option<Word>, frames: seq<Frame>)
  datatype StartResult = StartResult(outcome: Outcome<StartError>, frames: seq<Frame>)

  /** The reply to the `i`-th of `frames` when `history` was sent before them. */
  function ReplyAt(control: Oracle, history: seq<Frame>, frames: seq<Frame>, i: nat): Reply
    requires i < |frames|
  {
    control(history + frames[..i], frames[i])
  }

  /** Every one of `frames` got a zero response. */
  predicate AllAccepted(control: Oracle, history: seq<Frame>, frames: seq<Frame>) {
    forall i :: 0 <= i < |frames| ==> ReplyAt(control, history, frames, i).code == 0
  }

  /** A sequence that stops at its first failure: every frame before the last
      was accepted, and if fewer than `planned` were sent, the last one was
      refused. */
  predicate StopsAtFirstFailure(control: Oracle, history: seq<Frame>, frames: seq<Frame>, planned: seq<Frame>) {
    1 <= |frames| <= |planned| && frames == planned[..|frames|] &&
    (forall i :: 0 <= i < |frames| - 1 ==> ReplyAt(control, history, frames, i).code == 0) &&
    (|frames| < |planned| ==> ReplyAt(control, history, frames, |frames| - 1).code != 0)
  }

  /** The replies to a prefix of the frames are the replies to the same
      frames in the whole sequence. */
  lemma ReplyAtPrefix(control: Oracle, history: seq<Frame>, frames: seq<Frame>, k: nat, i: nat)
    requires i < k <= |frames|
    ensures ReplyAt(control, history, frames[..k], i) == ReplyAt(control, history, frames, i)
  {
    assert frames[..k][..i] == frames[..i];
  }

  /** The first frame is answered right after the history. */
  lemma ReplyAtFirst(control: Oracle, history: seq<Frame>, frames: seq<Frame>)
    requires |frames| >= 1
    ensures ReplyAt(control, history, frames, 0) == control(history, frames[0])
  {
    assert history + frames[..0] == history;
  }

  // ---------------------------------------------------------------------
  // Topology validation

  /** Lines the configuration file must hold: four words per module plus
      the length word. */
  function ExpectedLines(moduleCount: Word): nat {
    moduleCount * 4 + 1
  }

  /** Line `k` (0-based), stripped of whitespace, is the decimal rendering of
      reply word `7 + k`. */
  predicate LineMatches(lines: seq<string>, reply: seq<Word>, k: nat)
    requires k < |lines|
  {
    7 + k < |reply| && StripSpace(lines[k]) == DecimalString(reply[7 + k])
  }

  predicate MatchedBefore(lines: seq<string>, reply: seq<Word>, k: nat)
    requires k <= |lines|
  {
    forall j :: 0 <= j < k ==> LineMatches(lines, reply, j)
  }

  /** The configuration file describes the detected topology: its first
      `ExpectedLines` lines match the reply words from index 7 on, in order.
      Lines after those are not looked at. */
  predicate TopologyMatches(lines: seq<string>, reply: seq<Word>, moduleCount: Word) {
    |lines| >= ExpectedLines(moduleCount) && MatchedBefore(lines, reply, ExpectedLines(moduleCount))
  }

  /** The validation loop, from the `k`-th line on (`actual_lines == k`,
      `index == 7 + k`). */
  function ValidateFrom(lines: seq<string>, reply: seq<Word>, expected: nat, k: nat): Outcome<ConfigError>
    requires k <= |lines| && k <= expected
    decreases |lines| - k
  {
    if k < |lines| && k < expected then
      var line := StripSpace(lines[k]);
      if line == [] then Fail(EmptyLine(k + 1))
      else if 7 + k >= |reply| then Fail(ReplyEndsAt(k + 1))
      else if line != DecimalString(reply[7 + k]) then Fail(Mismatch(k + 1, line, reply[7 + k]))
      else ValidateFrom(lines, reply, expected, k + 1)
    else if k != expected then Fail(LineCount(expected, k))
    else Pass
  }

  function Validate(lines: seq<string>, reply: seq<Word>, moduleCount: Word): Outcome<ConfigError> {
    ValidateFrom(lines, reply, ExpectedLines(moduleCount), 0)
  }

  /** What each validation error means. */
  predicate ExplainsFailure(lines: seq<string>, reply: seq<Word>, expected: nat, e: ConfigError) {
    match e
    case EmptyLine(i) =>
      1 <= i <= |lines| && i <= expected && MatchedBefore(lines, reply, i - 1) &&
      StripSpace(lines[i - 1]) == []
    case ReplyEndsAt(i) =>
      1 <= i <= |lines| && i <= expected && MatchedBefore(lines, reply, i - 1) &&
      StripSpace(lines[i - 1]) != [] && |reply| <= 6 + i
    case Mismatch(i, text, w) =>
      1 <= i <= |lines| && i <= expected && MatchedBefore(lines, reply, i - 1) &&
      6 + i < |reply| && w == reply[6 + i] &&
      text == StripSpace(lines[i - 1]) && text != [] && text != DecimalString(w)
    case LineCount(e, a) =>
      e == expected && a == |lines| < expected && MatchedBefore(lines, reply, a)
    case _ => false
  }

  /** A line that does not match stops the loop with the error that
      explains it. */
  lemma ValidateFromStops(lines: seq<string>, reply: seq<Word>, expected: nat, k: nat)
    requires k < |lines| && k < expected
    requires MatchedBefore(lines, reply, k) && !LineMatches(lines, reply, k)
    ensures ValidateFrom(lines, reply, expected, k).Fail?
    ensures ExplainsFailure(lines, reply, expected, ValidateFrom(lines, reply, expected, k).error)
  {
  }

  lemma {:induction false} ValidateFromPass(lines: seq<string>, reply: seq<Word>, expected: nat, k: nat)
    requires k <= |lines| && k <= expected
    requires MatchedBefore(lines, reply, k)
    ensures ValidateFrom(lines, reply, expected, k) == Pass <==>
            |lines| >= expected && MatchedBefore(lines, reply, expected)
    decreases |lines| - k
  {
    if k < |lines| && k < expected {
      if LineMatches(lines, reply, k) {
        assert MatchedBefore(lines, reply, k + 1);
        ValidateFromPass(lines, reply, expected, k + 1);
      } else {
        ValidateFromStops(lines, reply, expected, k);
      }
    }
  }

  /** The validator accepts exactly the files that describe the topology. */
  lemma ValidatePassIff(lines: seq<string>, reply: seq<Word>, moduleCount: Word)
    ensures Validate(lines, reply, moduleCount) == Pass <==> TopologyMatches(lines, reply, moduleCount)
  {
    ValidateFromPass(lines, reply, ExpectedLines(moduleCount), 0);
  }

  lemma {:induction false} ValidateFromFails(lines: seq<string>, reply: seq<Word>, expected: nat, k: nat)
    requires k <= |lines| && k <= expected
    requires MatchedBefore(lines, reply, k)
    ensures ValidateFrom(lines, reply, expected, k).Fail? ==>
            ExplainsFailure(lines, reply, expected, ValidateFrom(lines, reply, expected, k).error)
    decreases |lines| - k
  {
    if k < |lines| && k < expected {
      if LineMatches(lines, reply, k) {
        assert MatchedBefore(lines, reply, k + 1);
        ValidateFromFails(lines, reply, expected, k + 1);
      } else {
        ValidateFromStops(lines, reply, expected, k);
      }
    }
  }

  /** A refused file is refused at its first bad line (reported 1-based, with
      the text and the reply word that disagree), or for being too short; a
      line-count error means every line that was there matched. */
  lemma ValidateFailureExplained(lines: seq<string>, reply: seq<Word>, moduleCount: Word)
    ensures Validate(lines, reply, moduleCount).Fail? ==>
            ExplainsFailure(lines, reply, ExpectedLines(moduleCount), Validate(lines, reply, moduleCount).error)
  {
    ValidateFromFails(lines, reply, ExpectedLines(moduleCount), 0);
  }

  lemma {:induction false} ValidateFromIgnoresRest(lines: seq<string>, extra: seq<string>, reply: seq<Word>, expected: nat, k: nat)
    requires k <= expected <= |lines|
    ensures ValidateFrom(lines + extra, reply, expected, k) == ValidateFrom(lines, reply, expected, k)
    decreases |lines| - k
  {
    var longer := lines + extra;
    if k < expected {
      assert longer[k] == lines[k];
      ValidateFromIgnoresRest(lines, extra, reply, expected, k + 1);
    } else {
      assert ValidateFrom(longer, reply, expected, k) == Pass;
    }
  }

  /** Lines after the expected count are never examined: appending lines to
      a file that is long enough does not change the verdict. */
  lemma ValidateIgnoresExtraLines(lines: seq<string>, extra: seq<string>, reply: seq<Word>, moduleCount: Word)
    requires |lines| >= ExpectedLines(moduleCount)
    ensures Validate(lines + extra, reply, moduleCount) == Validate(lines, reply, moduleCount)
  {
    ValidateFromIgnoresRest(lines, extra, reply, ExpectedLines(moduleCount), 0);
  }

  // ---------------------------------------------------------------------
  // Configuration sequence

  /** The frames ConfigureLocalIo plans to send. */
  function ConfigurePlan(b: Backend): seq<Frame> {
    [ResetFrame(b), CreateFrame(b), ReadConfigFrame(b)]
  }

  /** The command half of ConfigureLocalIo: reset, create, read, each
      aborting on a non-zero response, and the words of the read reply when
      all three were accepted. */
  datatype ReadBack = ReadBack(outcome: Outcome<ConfigError>, data: seq<Word>, frames: seq<Frame>)

  function ReadBackConfiguration(b: Backend, control: Oracle, history: seq<Frame>): ReadBack {
    var reset := ResetFrame(b);
    var r1 := control(history, reset);
    if r1.code != 0 then ReadBack(Fail(ResetFailed(r1.code)), [], [reset])
    else
      var create := CreateFrame(b);
      var r2 := control(history + [reset], create);
      if r2.code != 0 then ReadBack(Fail(CreateFailed(r2.code)), [], [reset, create])
      else
        var read := ReadConfigFrame(b);
        var r3 := control(history + [reset, create], read);
        if r3.code != 0 then ReadBack(Fail(ReadFailed(r3.code)), [], [reset, create, read])
        else ReadBack(Pass, r3.data, [reset, create, read])
  }

  /** ConfigureLocalIo: the three commands; then a read reply under 8 words
      is refused; word 7 is the module count, assigned before the optional
      validation. */
  function Configure(b: Backend, control: Oracle, history: seq<Frame>, validate: bool, file: Option<seq<string>>): ConfigResult {
    var c := ReadBackConfiguration(b, control, history);
    if c.outcome.Fail? then ConfigResult(c.outcome, None, c.frames)
    else if |c.data| < 8 then ConfigResult(Fail(ReplyTooShort(|c.data|)), None, c.frames)
    else ConfigResult(FileVerdict(validate, file, c.data), Some(c.data[7]), c.frames)
  }

  /** The verdict on the read reply: accepted without a file check,
      rejected when the file cannot be read, otherwise the validator's. */
  function FileVerdict(validate: bool, file: Option<seq<string>>, data: seq<Word>): Outcome<ConfigError>
    requires |data| >= 8
  {
    if !validate then Pass
    else if file.None? then Fail(FileUnreadable)
    else Validate(file.value, data, data[7])
  }

  /** Reset, create and read are sent in this order, and nothing is sent
      after the first non-zero response. */
  lemma ConfigureSendsInOrder(b: Backend, control: Oracle, history: seq<Frame>, validate: bool, file: Option<seq<string>>)
    ensures StopsAtFirstFailure(control, history, Configure(b, control, history, validate, file).frames, ConfigurePlan(b))
    ensures Configure(b, control, history, validate, file).moduleCount.Some? ==>
            Configure(b, control, history, validate, file).frames == ConfigurePlan(b) &&
            AllAccepted(control, history, ConfigurePlan(b))
  {
    var r := Configure(b, control, history, validate, file);
    var plan := ConfigurePlan(b);
    ConfigureReplies(b, control, history);
    assert plan[..1] == [plan[0]] && plan[..2] == [plan[0], plan[1]] && plan[..3] == plan;
    if |r.frames| < 3 {
      ReplyAtPrefix(control, history, plan, |r.frames|, |r.frames| - 1);
    }
    forall i | 0 <= i < |r.frames| - 1
      ensures ReplyAt(control, history, r.frames, i).code == 0
    {
      ReplyAtPrefix(control, history, plan, |r.frames|, i);
    }
  }

  /** The three replies of the configure plan, as Configure asks for them. */
  lemma ConfigureReplies(b: Backend, control: Oracle, history: seq<Frame>)
    ensures var plan := ConfigurePlan(b);
            ReplyAt(control, history, plan, 0) == control(history, ResetFrame(b)) &&
            ReplyAt(control, history, plan, 1) == control(history + [ResetFrame(b)], CreateFrame(b)) &&
            ReplyAt(control, history, plan, 2) == control(history + [ResetFrame(b), CreateFrame(b)], ReadConfigFrame(b))
  {
    var plan := ConfigurePlan(b);
    ReplyAtFirst(control, history, plan);
    assert plan[..1] == [ResetFrame(b)] && plan[..2] == [ResetFrame(b), CreateFrame(b)];
  }

  /** The module count is taken exactly when all three commands succeeded and
      the read reply has at least 8 words, and it is reply word 7. */
  lemma ConfigureModuleCount(b: Backend, control: Oracle, history: seq<Frame>, validate: bool, file: Option<seq<string>>)
    ensures var r := Configure(b, control, history, validate, file);
            var plan := ConfigurePlan(b);
            r.moduleCount.Some? <==>
              AllAccepted(control, history, plan) && |ReplyAt(control, history, plan, 2).data| >= 8
    ensures var r := Configure(b, control, history, validate, file);
            r.moduleCount.Some? ==> r.moduleCount.value == ReplyAt(control, history, ConfigurePlan(b), 2).data[7]
  {
    ConfigureReplies(b, control, history);
  }

  /** Configuration succeeds exactly when the module count was read and, if
      validation was asked for, the file can be read and describes the
      topology; a validation failure keeps the module count. */
  lemma ConfigureSucceedsIff(b: Backend, control: Oracle, history: seq<Frame>, validate: bool, file: Option<seq<string>>)
    ensures var r := Configure(b, control, history, validate, file);
            r.outcome.Pass? <==>
              r.moduleCount.Some? &&
              (validate ==>
                 file.Some? &&
                 TopologyMatches(file.value, ReplyAt(control, history, ConfigurePlan(b), 2).data, r.moduleCount.value))
    ensures var r := Configure(b, control, history, validate, file);
            r.outcome.Fail? && r.moduleCount.Some? ==> validate
  {
    var r := Configure(b, control, history, validate, file);
    var plan := ConfigurePlan(b);
    ConfigureReplies(b, control, history);
    if r.moduleCount.Some? && validate && file.Some? {
      ValidatePassIff(file.value, ReplyAt(control, history, plan, 2).data, r.moduleCount.value);
    }
  }

  // ---------------------------------------------------------------------
  // Start sequence

  /** The frames StartLocalIo plans to send. */
  function StartPlan(b: Backend): seq<Frame> {
    if b == Axioline then [LoadMappingFrame(), EnableFrame(Axioline)] else [EnableFrame(Interbus)]
  }

  /** StartLocalIo: on Axioline load the process-data mapping first, then
      enable I/O data output; each aborts on a non-zero response. */
  function Start(b: Backend, control: Oracle, history: seq<Frame>): StartResult {
    if b == Axioline then
      var load := LoadMappingFrame();
      var r1 := control(history, load);
      if r1.code != 0 then StartResult(Fail(LoadMappingFailed(r1.code)), [load])
      else
        var enable := EnableFrame(b);
        var r2 := control(history + [load], enable);
        StartResult(if r2.code != 0 then Fail(EnableFailed(r2.code)) else Pass, [load, enable])
    else
      var enable := EnableFrame(b);
      var r := control(history, enable);
      StartResult(if r.code != 0 then Fail(EnableFailed(r.code)) else Pass, [enable])
  }

  /** The start frames go out in plan order, stop at the first refusal, and
      the start succeeds exactly when every frame sent was accepted. */
  lemma StartSendsInOrder(b: Backend, control: Oracle, history: seq<Frame>)
    ensures StopsAtFirstFailure(control, history, Start(b, control, history).frames, StartPlan(b))
    ensures Start(b, control, history).outcome.Pass? <==> AllAccepted(control, history, Start(b, control, history).frames)
    ensures Start(b, control, history).outcome.Pass? ==> Start(b, control, history).frames == StartPlan(b)
  {
    var plan := StartPlan(b);
    var r := Start(b, control, history);
    ReplyAtFirst(control, history, r.frames);
    if b == Axioline {
      assert r.frames[..1] == [LoadMappingFrame()];
      assert plan[..1] == [LoadMappingFrame()] && plan[..2] == plan;
      if |r.frames| == 2 {
        assert ReplyAt(control, history, r.frames, 1) == control(history + [LoadMappingFrame()], EnableFrame(b));
      }
    } else {
      assert plan[..1] == plan;
    }
  }
}
