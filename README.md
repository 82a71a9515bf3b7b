# BusConductor: a Dafny model of BcComponent

BcComponent is a PLCnext component that brings up a local I/O bus. The bus
is either Axioline or Interbus. A worker thread calls `Update` once per
period, and each call does three things:
- it looks for a rising edge on the `CONFIG_REQ` and `START_IO_REQ` port
  inputs;
- on a configure edge it runs the configure sequencer; on a start edge it
  runs the start sequencer;
- it copies `configured`, `running` and the module count to the output ports.

The configure sequencer sends three commands:
- reset driver;
- create configuration;
- read configuration.

It then takes the module count from word 7 of the read reply. When asked, it
also checks a user configuration file line by line against the reply. The
start sequencer enables I/O data output, after loading the process-data
mapping first on Axioline. A third operation reads the diagnostic status
word and decodes its flags.

The model has six modules:
- `Wrappers`: `Option` and `Outcome`.
- `Text`:
  - whitespace removal with the C `isspace` set;
  - `std::to_string` of a non-negative number, with its inverse.
- `Protocol`:
  - 16-bit words and the 100-word command frame;
  - the command codes of both backends;
  - each frame exactly as the reused buffer holds it when sent;
  - the status-word decoder.
- `Sequencers`: the configure sequencer, the topology validator and the
  start sequencer. Each is a function of three things:
  - the backend;
  - the bus-master service;
  - the frames sent before.
- `Dispatch`: one tick of `Update` as a function `Tick` on the component's
  state, with lemmas about single ticks and about runs of ticks.
- `Component`: the class `BcComponent`. It holds the source's own fields,
  plus a log of the frames sent. Its methods work step by step, as the
  source does:
  - fields are updated in place;
  - one 100-word `array` send buffer is reused across the frames of a call;
  - the validator is a `while` loop.

  `Update`, its two blocks, `ConfigureLocalIo` and its command half,
  `StartLocalIo` and the validation loop are each proved equal to the
  `Sequencers` or `Dispatch` function that describes them.
  `ReadLocalIoStatus` is proved equal to `ReadStatus` of the reply.
  `SubscribeServices` states its choice of backend case by case.

The bus-master service is modelled as an oracle: a function from the frames
sent so far and the frame being sent now to a reply (response code and
received words). Nothing about the device is assumed except that it is
deterministic given that history. The component keeps the log of frames it
has sent (`sent`), so the order of commands, and the point at which a
sequence stops, can be stated as properties.

Choices where the source leaves something open:
- **`running`.** `Update` reads and writes a `running` status field and a
  `RUNNING` output port. `src/BcComponent.hpp` declares neither. The model
  adds both, starting false like the other status fields.
- **Short replies.** The source indexes `receiveData[index]` in the validator
  and `receiveData[5]` in the status read without any bounds check. The
  model does not forbid short replies with a precondition. It treats them as
  explicit outcomes instead:
  - `ReplyEndsAt(line)`: the configuration is refused;
  - `StatusTooShort(length)`: nothing is decoded.

  The `receiveData.size() < 8` check that the source does make is modelled
  as written, as `ReplyTooShort`.
- **The configuration file.** It is an `Option<seq<string>>` of lines
  already split. `None` means the file cannot be opened or read.
- **Status word 0x00A6.** By the masks in `src/BcComponent.cpp:344-353`,
  0x00A6 has bits 1, 2, 5 and 7 set. So PF, Bus, Run and Ready are set, and
  Ctrl and Active are clear (`Protocol.DecodeStatusExample`).

## Model

| member | source | states |
|---|---|---|
| Text.StripSpace | src/BcComponent.cpp:217 | the stripped line holds no whitespace character and is no longer than the line |
| Text.StripSpaceChars | src/BcComponent.cpp:217 | a character is in the stripped line exactly when it is in the line and is not whitespace |
| Text.StripSpaceKeepsClean | src/BcComponent.cpp:217 | a line without whitespace is left unchanged |
| Text.StripSpaceIdempotent | src/BcComponent.cpp:217 | stripping twice is the same as stripping once |
| Text.StripSpaceConcat | src/BcComponent.cpp:217 | whitespace is removed anywhere in the line, not only trimmed: stripping a concatenation strips each part |
| Text.DecimalString | src/BcComponent.cpp:226 | `to_string` of a number is a non-empty digit string with no leading zero, and is "0" exactly for zero |
| Text.ParseDecimalString | src/BcComponent.cpp:226 | reading back the rendering of a number gives the number |
| Text.DecimalStringOfParse | src/BcComponent.cpp:226 | rendering the value of a canonical numeral gives the numeral back |
| Text.DecimalStringInjective | src/BcComponent.cpp:226 | two numbers with the same rendering are equal |
| Text.DecimalStringMatch | src/BcComponent.cpp:226 | a configuration line equals the rendering of reply word `n` exactly when it is a canonical numeral of value `n` (no sign, no leading zero) |
| Protocol.FrameContents | src/BcComponent.cpp:109-169 | word by word, each frame as the reused buffer holds it when sent, with the Axioline enable frame still carrying words 3..5 of the load-mapping frame (src/BcComponent.cpp:254-284 and 312-319 for the start and status frames) |
| Protocol.FramesCarryTheirCommands | src/BcComponent.cpp:113-169 | every frame has the right command code and declares exactly the parameters of its command: reset with none, create 0x0001, read 0x0003, load mapping (0x3000, 0x0001, 0x0021, 0x0000), enable 0x0001, status (0x0001, 0x0104) (src/BcComponent.cpp:261-284 and 316-319 for the start and status frames) |
| Protocol.DecodeStatus | src/BcComponent.cpp:344-353 | each flag is one bit of word 5: PF bit 1, Bus bit 2, Ctrl bit 3, Run bit 5, Active bit 6, Ready bit 7, BD bit 8, Force bit 10 |
| Protocol.DecodeEncodeStatus | src/BcComponent.cpp:344-353 | decoding the word that has exactly the given flags set recovers every flag |
| Protocol.EncodeDecodeStatus | src/BcComponent.cpp:344-353 | the decoder looks at exactly the eight masked bits (mask 0x05EE) and ignores all others |
| Protocol.DecodeStatusExample | src/BcComponent.cpp:344-353 | 0x00A6 decodes to PF, Bus, Run and Ready set, all other flags clear |
| Sequencers.ValidatePassIff | src/BcComponent.cpp:212-243 | the validator accepts a file exactly when it has at least `num_modules*4+1` lines and each of the first ones, stripped, is the decimal rendering of reply word 7, 8, … in order |
| Sequencers.ValidateFailureExplained | src/BcComponent.cpp:215-243 | a refused file is refused at its first bad line: an empty line (1-based number reported), a line with no reply word, or a line that differs from its word (text and word reported), every earlier line matching; a count error means the file is shorter than expected and every line matched |
| Sequencers.ValidateIgnoresExtraLines | src/BcComponent.cpp:215 | lines after the expected count are never examined: appending lines to a long enough file does not change the verdict |
| Sequencers.ConfigureSendsInOrder | src/BcComponent.cpp:113-188 | reset, create and read are sent in that order, nothing after the first non-zero response; when a module count is read, all three were sent and accepted |
| Sequencers.ConfigureModuleCount | src/BcComponent.cpp:191-200 | the module count is taken exactly when all three commands are accepted and the read reply has at least 8 words, and it is reply word 7 |
| Sequencers.ConfigureSucceedsIff | src/BcComponent.cpp:200-248 | configuration succeeds exactly when the module count was read and, if validation is asked for, the file is readable and describes the topology; a failing validation keeps the module count |
| Sequencers.StartSendsInOrder | src/BcComponent.cpp:258-307 | on Axioline load mapping then enable, on Interbus enable only; the sequence stops at the first refusal and succeeds exactly when every frame sent was accepted |
| Dispatch.DefaultPort | src/BcComponent.hpp:95-103 | every port member starts false or 0 |
| Dispatch.TickPublishesAndRemembers | src/BcComponent.cpp:81-102 | after every tick the output ports equal `configured`, `running` and `num_modules`, the inputs are untouched, and both requests are remembered whether or not anything fired |
| Dispatch.TickConfigure | src/BcComponent.cpp:72-81 | without a configure edge the configure half sends nothing and leaves `configured`, `running` and `num_modules` unchanged; with one, `configured` is the sequencer's verdict, `num_modules` is word 7 if read and 0 otherwise, and the configure frames are sent first |
| Dispatch.TickStartGuard | src/BcComponent.cpp:83-97 | a start edge while not configured sends nothing and leaves `running` unchanged; while configured, `running` becomes the start verdict; without a start edge the start half sends nothing and leaves `running` unchanged |
| Dispatch.TickBothEdges | src/BcComponent.cpp:72-97 | with both edges in one tick, configure runs first and the start guard sees the `configured` it has just produced |
| Dispatch.TickKeepsInvariant | src/BcComponent.cpp:74-96 | `running` implies `configured` after every tick that starts where it holds |
| Dispatch.HeldConfigureRunsOnce | src/BcComponent.cpp:73-81 | a configure request held high over consecutive ticks runs the sequencer once, on the first tick, and never if it was already high before |
| Dispatch.TickWithoutEdges | src/BcComponent.cpp:72-102 | a tick with neither edge sends no frame and changes no status: it only remembers both requests and copies the status to the output ports |
| Dispatch.HeldStartRunsOnce | src/BcComponent.cpp:84-97 | a start request held high runs the start sequencer exactly once, on the first tick, when it was low before and the component is configured then, and otherwise never |
| Dispatch.HeldStartRunsNever | src/BcComponent.cpp:84-97 | a start request that was already high and stays high never runs the start sequencer |
| Dispatch.HeldRequestsAreQuiet | src/BcComponent.cpp:72-102 | with both requests already high and held, a run of ticks sends nothing and leaves `configured`, `running` and `num_modules` unchanged |
| Dispatch.RunKeepsInvariant | src/BcComponent.cpp:74-96 | `running` implies `configured` throughout any run of ticks from a state where it holds |
| Dispatch.RunFromInitialKeepsInvariant | src/BcComponent.hpp:63-72 | from the initial state, `running` implies `configured` after every run of ticks |
| Dispatch.FirstTickConfigures | src/BcComponent.hpp:63 | edge memory starts low, so a configure request already high on the first tick is an edge and the first frame sent is the reset |
| Dispatch.StartBeforeConfigureOnlyWarns | src/BcComponent.hpp:71-72 | a start request before any configure sends nothing and leaves the component unconfigured and stopped (src/BcComponent.cpp:88-90) |
| Component.ReadStatus | src/BcComponent.cpp:337-353 | a non-zero response decodes nothing; a zero response with word 5 present decodes exactly that word |
| Component.ValidateTopology | src/BcComponent.cpp:212-243 | the validation loop computes the validator's verdict, accepts exactly the files that describe the topology, and explains every refusal |
| Component.BcComponent.constructor | src/BcComponent.hpp:63-72 | every status field, the edge memory and the ports start false/0, Axioline is the default backend, nothing is sent |
| Component.BcComponent.SubscribeServices | src/BcComponent.cpp:21-41 | Axioline is chosen whenever its service is available, Interbus only when Axioline is absent and Interbus present; with neither, `allSystemsGo` is false (the flag SetupConfig, left out, uses to start the worker thread) |
| Component.BcComponent.WriteRequests | src/BcComponent.hpp:97-99 | the host writes only the three input port members, and the invariant is kept |
| Component.BcComponent.Control | src/BcComponent.cpp:121-128 | the frame goes to the service of the chosen backend and is appended to the log |
| Component.BcComponent.Update | src/BcComponent.cpp:70-103 | one call is exactly `Tick` on the component's state and keeps `running ==> configured` |
| Component.BcComponent.CheckConfigRequest | src/BcComponent.cpp:72-81 | the configure block is exactly the configure half of `Tick` |
| Component.BcComponent.CheckStartRequest | src/BcComponent.cpp:83-97 | the start block is exactly the start half of `Tick` |
| Component.BcComponent.ConfigureLocalIo | src/BcComponent.cpp:105-248 | the result, the frames sent and `num_modules` are exactly those of `Configure` (assigned before validation, left alone when no count is read) |
| Component.BcComponent.SendConfigurationCommands | src/BcComponent.cpp:109-189 | the three commands from the reused buffer send exactly the frames of the command half of `Configure`, and return the read reply when all were accepted |
| Component.BcComponent.StartLocalIo | src/BcComponent.cpp:252-308 | the result and the frames sent are exactly those of `Start` |
| Component.BcComponent.ReadLocalIoStatus | src/BcComponent.cpp:310-355 | sends exactly the status frame, reports `ReadStatus` of the reply, and leaves `configured`, `running` and `num_modules` unchanged |

## Left out

- Logging (`log.Info`, `log.Warning`, `log.Error`, `log.Critical`).
  - Each error of the two sequencers becomes a `ConfigError` or `StartError` tag.
  - The failed status read becomes `StatusReadFailed`; otherwise `ReadLocalIoStatus` returns the decoded flags where the source only logs them.
  - The warning for a start request before configuration (src/BcComponent.cpp:90) has no tag: the model only shows that nothing is sent and nothing changes.
  - The critical message when neither service is found (src/BcComponent.cpp:38) leaves only `allSystemsGo` false.
- Update reads `CONFIG_REQ` (src/BcComponent.cpp:73), `CONFIG_MUST_MATCH` (:79) and `START_IO_REQ` (:84) at three moments, with blocking bus calls in between, while the host may write the port concurrently. The model reads all three once, before the tick (`WriteRequests`, `Dispatch.Sample`). Any three values read at those moments form one possible `Requests`, so every such tick is covered, but the interleaving itself is not modelled.
- The worker thread and its period, and the lifecycle hooks `Initialize`, `LoadConfig`, `SetupConfig`, `ResetConfig` and `RegisterComponentPorts`. These are threading and runtime plumbing. A tick is one call of `Update`.
- Service lookup through `ServiceManager::TryGetService`. `SubscribeServices` takes two availability booleans instead.
- `InterbusControl` and `AxioControl`. These are foreign calls, modelled by the oracle.
- File I/O: opening the hard-coded path and `getline`. An error during reading (`f.bad()`) is folded into `None`, as is a file that cannot be opened. A read error after some lines is therefore reported as unreadable before validation, rather than after a partial loop. The loop condition at src/BcComponent.cpp:215 calls `getline` before it tests the count. So the source also reads line `expected_lines + 1`, and a read error on that line is refused at src/BcComponent.cpp:234. Only errors after that line go unseen, and the source accepts such a file. The model refuses that file when it is given as `None`. To model the source's acceptance, pass `Some` of the lines up to and including line `expected_lines + 1`.
- The "more follows" word of the read reply (src/BcComponent.cpp:192-193) and the run-flag check after start (src/BcComponent.cpp:306). The source does not implement either.
- `src/BcProgram.hpp` is not part of this model. It declares an empty program shell.
- Component.BcComponent.ConfigureLocalIo: the command half runs in its own method, `SendConfigurationCommands`, and the validation loop in the method `ValidateTopology`. Each method then has a proof of its own. The source has all of this inline in one function, with the same order and the same early returns.
- Component.BcComponent.Update: the configure block and the start block run in their own methods, `CheckConfigRequest` and `CheckStartRequest`, for the same reason.
- Component.ReadStatus: a reply with no word 5 is not decoded. The source would read past the end of the received data there.
- Component.ValidateTopology: a line with no reply word to compare against is refused with `ReplyEndsAt`. The source would read past the end of the received data there.
