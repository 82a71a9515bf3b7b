/** The bus-master command protocol: 16-bit words, the 100-word command frame
    that BcComponent reuses in place, the reply of the bus-master service, the
    command codes of both backends and the diagnostic status word. */
module Protocol {

  /** `uint16` */
  type Word = x: int | 0 <= x < 0x1_0000

  /** The two bus-master services; exactly one is used for the component's life. */
  datatype Backend = Axioline | Interbus

  /** A command frame: word 0 is the command code, word 1 the parameter count,
      the following words the parameters. The source sends a `std::vector` of
      `FrameSize` words. */
  type Frame = seq<Word>

  const FrameSize: nat := 100

  /** The reply of `AxioControl`/`InterbusControl`: the response code (zero
      means success) and the received words. */
  datatype Reply = Reply(code: Word, data: seq<Word>)

  /** The bus-master service as the component sees it: given every frame the
      component sent before, and the frame it sends now, the device answers.
      Nothing about the device is assumed beyond determinism. */
  type Oracle = (seq<Frame>, Frame) -> Reply

  // Command codes
  function ResetCode(b: Backend): Word {
    if b == Interbus then 0x1303 else 0x1703
  }
  const CreateConfigurationCode: Word := 0x0710
  const ReadConfigurationCode: Word := 0x030B
  const LoadMappingCode: Word := 0x0728
  const EnableOutputCode: Word := 0x0701
  const ReadStatusCode: Word := 0x0351

  /** A freshly allocated send buffer (src/BcComponent.cpp:109): every word zero. */
  function Blank(): (f: Frame)
    ensures |f| == FrameSize
  {
    seq(FrameSize, _ => 0)
  }

  // The frames as each sequencer leaves the reused buffer when it sends
  // them: a later frame writes only its own leading words over the previous
  // frame, so slots it does not write keep their earlier values.

  /** Reset driver: code, no parameters. */
  function ResetFrame(b: Backend): Frame {
    Blank()[0 := ResetCode(b)][1 := 0x0000]
  }

  /** Create configuration, written over the reset frame: one parameter,
      frame reference 1. */
  function CreateFrame(b: Backend): Frame {
    ResetFrame(b)[0 := CreateConfigurationCode][1 := 0x0001][2 := 0x0001]
  }

  /** Read configuration, written over the create frame: one parameter,
      attributes 3 (device type and device id). */
  function ReadConfigFrame(b: Backend): Frame {
    CreateFrame(b)[0 := ReadConfigurationCode][1 := 0x0001][2 := 0x0003]
  }

  /** Load process-data mapping (Axioline start only), on a fresh buffer:
      four parameters (direction both, first communication relationship,
      mode 0x21, reserved 0). */
  function LoadMappingFrame(): Frame {
    Blank()[0 := LoadMappingCode][1 := 0x0004][2 := 0x3000][3 := 0x0001][4 := 0x0021][5 := 0x0000]
  }

  /** Enable I/O data output: one parameter, communication relationship 1.
      On Axioline it is written over the load-mapping frame, on Interbus on a
      fresh buffer. */
  function EnableFrame(b: Backend): Frame {
    (if b == Axioline then LoadMappingFrame() else Blank())[0 := EnableOutputCode][1 := 0x0001][2 := 0x0001]
  }

  /** Read diagnostic status: two parameters, one variable, variable id 0x0104. */
  function StatusFrame(): Frame {
    Blank()[0 := ReadStatusCode][1 := 0x0002][2 := 0x0001][3 := 0x0104]
  }

  /** `words` followed by zeros up to the frame size. */
  function Padded(words: seq<Word>): (f: Frame)
    requires |words| <= FrameSize
    ensures |f| == FrameSize
  {
    words + seq(FrameSize - |words|, _ => 0)
  }

  /** The frame announces command `code` with exactly `params` as parameters:
      the words past the declared count are not part of the command. */
  predicate Carries(f: Frame, code: Word, params: seq<Word>) {
    |f| == FrameSize && 2 + |params| <= |f| &&
    f[0] == code && f[1] == |params| && f[2..2 + |params|] == params
  }

  /** Word by word, what the buffer holds when each frame is sent. The
      enable frame on Axioline still carries words 3..5 of the load-mapping
      frame before it. */
  lemma FrameContents(b: Backend)
    ensures ResetFrame(b) == Padded([ResetCode(b), 0x0000])
    ensures CreateFrame(b) == Padded([CreateConfigurationCode, 0x0001, 0x0001])
    ensures ReadConfigFrame(b) == Padded([ReadConfigurationCode, 0x0001, 0x0003])
    ensures LoadMappingFrame() == Padded([LoadMappingCode, 0x0004, 0x3000, 0x0001, 0x0021, 0x0000])
    ensures EnableFrame(Interbus) == Padded([EnableOutputCode, 0x0001, 0x0001])
    ensures EnableFrame(Axioline) == Padded([EnableOutputCode, 0x0001, 0x0001, 0x0001, 0x0021, 0x0000])
    ensures StatusFrame() == Padded([ReadStatusCode, 0x0002, 0x0001, 0x0104])
  {
    assert ResetFrame(b) == Padded([ResetCode(b), 0x0000]);
    assert CreateFrame(b) == Padded([CreateConfigurationCode, 0x0001, 0x0001]);
    assert ReadConfigFrame(b) == Padded([ReadConfigurationCode, 0x0001, 0x0003]);
    assert LoadMappingFrame() == Padded([LoadMappingCode, 0x0004, 0x3000, 0x0001, 0x0021, 0x0000]);
    assert EnableFrame(Interbus) == Padded([EnableOutputCode, 0x0001, 0x0001]);
    assert EnableFrame(Axioline) == Padded([EnableOutputCode, 0x0001, 0x0001, 0x0001, 0x0021, 0x0000]);
    assert StatusFrame() == Padded([ReadStatusCode, 0x0002, 0x0001, 0x0104]);
  }

  /** Every frame declares exactly the parameters its command needs, so the
      stale words left in the reused buffer lie outside the declared count. */
  lemma FramesCarryTheirCommands(b: Backend)
    ensures Carries(ResetFrame(b), ResetCode(b), [])
    ensures Carries(CreateFrame(b), CreateConfigurationCode, [0x0001])
    ensures Carries(ReadConfigFrame(b), ReadConfigurationCode, [0x0003])
    ensures Carries(LoadMappingFrame(), LoadMappingCode, [0x3000, 0x0001, 0x0021, 0x0000])
    ensures Carries(EnableFrame(b), EnableOutputCode, [0x0001])
    ensures Carries(StatusFrame(), ReadStatusCode, [0x0001, 0x0104])
  {
    assert ResetFrame(b)[2..2] == [];
    assert CreateFrame(b)[2..3] == [0x0001];
    assert ReadConfigFrame(b)[2..3] == [0x0003];
    assert LoadMappingFrame()[2..6] == [0x3000, 0x0001, 0x0021, 0x0000];
    assert EnableFrame(b)[2..3] == [0x0001];
    assert StatusFrame()[2..4] == [0x0001, 0x0104];
  }

  // Diagnostic status word (reply word 5 of the status read)

  /** The named flags `ReadLocalIoStatus` reports. */
  datatype IoStatus = IoStatus(
    peripheralFault: bool,  // xPF, mask 0x0002
    busFault: bool,         // xBus, mask 0x0004
    controllerFault: bool,  // xCtrl, mask 0x0008
    run: bool,              // xRun, mask 0x0020
    active: bool,           // xActive, mask 0x0040
    ready: bool,            // xReady, mask 0x0080
    busDisable: bool,       // xBD, mask 0x0100
    forceMode: bool         // xForce, mask 0x0400
  )

  /** Whether any bit of `mask` is set in the 16-bit word `v`
      (src/BcComponent.cpp:344). */
  function Masked(v: bv16, mask: bv16): bool {
    v & mask != 0
  }

  /** Helper behind DecodeStatus: the flags of a status word, read by their
      masks on the bit-vector form. */
  function StatusFlags(v: bv16): IoStatus {
    IoStatus(Masked(v, 0x0002), Masked(v, 0x0004), Masked(v, 0x0008),
             Masked(v, 0x0020), Masked(v, 0x0040), Masked(v, 0x0080),
             Masked(v, 0x0100), Masked(v, 0x0400))
  }

  /** Helper behind EncodeStatus: the status word with exactly the given
      flags set, as a bit-vector. */
  function FlagWord(s: IoStatus): bv16 {
    (if s.peripheralFault then 0x0002 else 0) | (if s.busFault then 0x0004 else 0) |
    (if s.controllerFault then 0x0008 else 0) | (if s.run then 0x0020 else 0) |
    (if s.active then 0x0040 else 0) | (if s.ready then 0x0080 else 0) |
    (if s.busDisable then 0x0100 else 0) | (if s.forceMode then 0x0400 else 0)
  }

  /** Bit `k` of `w`, counted from the least significant bit. */
  function Bit(w: nat, k: nat): bool {
    (w / Pow2(k)) % 2 == 1
  }

  function Pow2(k: nat): (p: nat)
    ensures p >= 1
  {
    if k == 0 then 1 else 2 * Pow2(k - 1)
  }

  /** The decode of reply word 5. Each mask selects one bit: peripheral fault
      bit 1, bus fault bit 2, controller fault bit 3, run bit 5, active bit 6,
      ready bit 7, bus disable bit 8, force mode bit 10. */
  function DecodeStatus(w: Word): (s: IoStatus)
    ensures s.peripheralFault == Bit(w, 1) && s.busFault == Bit(w, 2)
    ensures s.controllerFault == Bit(w, 3) && s.run == Bit(w, 5)
    ensures s.active == Bit(w, 6) && s.ready == Bit(w, 7)
    ensures s.busDisable == Bit(w, 8) && s.forceMode == Bit(w, 10)
  {
    StatusFlags(w as bv16)
  }

  /** The status word with exactly the given flags set (the inverse of
      DecodeStatus on the eight flag bits). */
  function EncodeStatus(s: IoStatus): Word {
    FlagWord(s) as int
  }

  /** Helper for DecodeEncodeStatus: the round trip on the bit-vector form. */
  lemma FlagsRoundTrip(s: IoStatus)
    ensures StatusFlags(FlagWord(s)) == s
  {
  }

  /** Decoding recovers every flag that was encoded. */
  lemma DecodeEncodeStatus(s: IoStatus)
    ensures DecodeStatus(EncodeStatus(s)) == s
  {
    var v := FlagWord(s);
    assert (v as int) as bv16 == v;
    FlagsRoundTrip(s);
  }

  /** Encoding the decoded flags keeps exactly the eight flag bits of the
      word: the decoder ignores every other bit. */
  lemma EncodeDecodeStatus(w: Word)
    ensures EncodeStatus(DecodeStatus(w)) == ((w as bv16) & 0x05EE) as int
  {
    var v := w as bv16;
    assert FlagWord(StatusFlags(v)) == v & 0x05EE;
  }

  /** 0x00A6 sets bits 1, 2, 5 and 7. */
  lemma DecodeStatusExample()
    ensures DecodeStatus(0x00A6) == IoStatus(true, true, false, true, false, true, false, false)
  {
  }
}
