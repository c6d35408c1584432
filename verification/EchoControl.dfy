/** The dual-path echo canceller (jni/oslec-jni/echo.c): the DC filter of the received signal, the
    two transversal filters and the adaption of the background taps, the short-term levels, the
    double-talk hangover, and the transfer of the background filter to the foreground. */
module EchoControl {
  import opened EchoFilter
  import opened FixedPoint

  const MIN_TX_POWER_FOR_ADAPTION := 64
  const MIN_RX_POWER_FOR_ADAPTION := 64
  const DTD_HANGOVER := 600

  // ----- the DC filter

  datatype Dc = Dc(rx1: int, rx2: int)

  /** The scaled input: `rx << 15` less a sixteenth. */
  function ScaledInput(rx: int): int {
    rx * 0x8000 - rx * 0x8000 / 16
  }

  function DcStep(dc: Dc, rx: int): (Dc, int) {
    var tmp := ScaledInput(rx);
    var rx1 := dc.rx1 + (-(dc.rx1 / 8) + tmp - dc.rx2);
    (Dc(rx1, tmp), Clamp(-16383, rx1 / 0x8000, 16383))
  }

  /** The filter in plain arithmetic: an eighth of the memory drains, and the change of the input, scaled by
      fifteen sixteenths, comes in. */
  lemma DcStepIs(dc: Dc, rx: int)
    ensures var (next, out) := DcStep(dc, rx);
            && 0 <= dc.rx1 + 8 * (next.rx1 - dc.rx1 - (30720 * rx - dc.rx2)) <= 7
            && next.rx2 == 30720 * rx
            && out == Clamp(-16383, next.rx1 / 0x8000, 16383)
  {
  }

  /** A constant input is removed: while it lasts the memory shrinks by an eighth at every sample, until fewer
      than eight units are left. */
  lemma DcIsRemoved(dc: Dc, rx: int)
    requires dc.rx2 == 30720 * rx
    ensures var next := DcStep(dc, rx).0;
            && next.rx2 == dc.rx2
            && 8 * Abs(next.rx1) <= 7 * Abs(dc.rx1) + 7
            && (dc.rx1 >= 8 || dc.rx1 < 0 ==> Abs(next.rx1) < Abs(dc.rx1))
  {
    DcStepIs(dc, rx);
  }

  /** A received sample after the halving that protects the filter. */
  predicate Halved(rx: int) {
    -16384 <= rx <= 16383
  }

  /** The interval that holds the filter's memory, without its direct path: it needs no slack. */
  predicate DcBounded(dc: Dc) {
    && -16384 * 30720 <= dc.rx2 <= 16383 * 30720 && dc.rx2 % 30720 == 0
    && -16383 * 30720 <= dc.rx1 - dc.rx2 <= 16384 * 30720
  }

  /** From the interval the filter stays in it, and neither the state nor any intermediate result
      leaves 32 bits. */
  lemma DcStepFits(dc: Dc, rx: int)
    requires DcBounded(dc) && Halved(rx)
    ensures DcBounded(DcStep(dc, rx).0)
    ensures var tmp := ScaledInput(rx);
            && IsInt32(rx * 0x8000) && tmp == 30720 * rx
            && IsInt32(-(dc.rx1 / 8) + tmp) && IsInt32(-(dc.rx1 / 8) + tmp - dc.rx2)
            && Abs(DcStep(dc, rx).0.rx1) <= 32767 * 30720
  {
    var w := dc.rx1 - dc.rx2;
    var r := dc.rx2 / 30720;
    assert dc.rx2 == 30720 * r;
    assert dc.rx1 / 8 == w / 8 + 3840 * r by { EighthOfSum(w, r); }
  }

  lemma EighthOfSum(w: int, r: int)
    ensures (w + 30720 * r) / 8 == w / 8 + 3840 * r
  {
  }

  // ----- short-term levels

  /** A single-pole average: accumulator and level. */
  datatype Level = Level(acc: int, level: int)

  const QUIET := Level(0, 0)

  function Track(l: Level, x: int): Level {
    var acc := l.acc + Abs(x) - l.level;
    Level(acc, (acc + 16) / 32)
  }

  predicate LevelBounded(l: Level, top: nat) {
    0 <= l.acc <= 32 * top + 15 && l.level == (l.acc + 16) / 32
  }

  /** A level is never negative, and never above the largest sample it has seen. */
  lemma TrackStaysBounded(l: Level, x: int, top: nat)
    requires LevelBounded(l, top) && Abs(x) <= top
    ensures LevelBounded(Track(l, x), top)
    ensures 0 <= Track(l, x).level <= top
  {
  }

  /** A level moves a thirty-second of the way to the new magnitude. */
  lemma TrackMovesOn(l: Level, x: int)
    requires l.level == (l.acc + 16) / 32
    ensures Track(l, x).level == (Track(l, x).acc + 16) / 32
    ensures Abs(32 * (Track(l, x).level - l.level) - (Abs(x) - l.level)) <= 31
    ensures Track(l, x).acc - l.acc == Abs(x) - l.level
  {
  }

  // ----- one update

  datatype Mode = Mode(useRxHpf: bool, useAdaption: bool)

  /** A filter length the source can scale its power by. */
  type Length = n: nat | n >= 2 witness 2

  /** The state between two updates. The three positions and the two rings of the source all stand
      for one delay line of the transmitted signal, newest sample first. */
  datatype StateFields = State(dc: Dc, line: seq<int16>, pstates: nat, ltx: Level, lrx: Level, lclean: Level,
                               lcleanBg: Level, dwell: int, condMet: int, fg: seq<int16>, bg: seq<int16>)

  type State = st: StateFields | |st.fg| >= 2 && |st.bg| == |st.fg| && |st.line| == |st.fg|
    witness State(Dc(0, 0), [0, 0], 0, QUIET, QUIET, QUIET, QUIET, 0, 0, [0, 0], [0, 0])

  datatype Input = Input(mode: Mode, tx: int16, rx: int16)

  /** The received sample as the rest of the update sees it. */
  function Received(st: State, x: Input): (Dc, int) {
    if x.mode.useRxHpf then DcStep(st.dc, x.rx / 2) else (st.dc, x.rx / 2)
  }

  /** The running power of the delay line, scaled down by its length: in with the new sample, out
      with the oldest. */
  function Power(pstates: nat, new_: int, old_: int, taps: Length): nat
  {
    var log2taps := TopBit(taps);
    Log2TapsIsPositive(taps);
    var p := pstates + (Times(new_, new_) - Times(old_, old_) + Pow2(log2taps - 1)) / Pow2(log2taps);
    if p < 0 then 0 else p
  }

  lemma Log2TapsIsPositive(taps: Length)
    ensures TopBit(taps) >= 1
  {
  }

  /** The foreground residual, which the source keeps in sixteen bits. */
  function Clean(st: State, line: seq<int16>, rx: int): int16
    requires |line| == |st.fg|
  {
    ToInt16(rx - Answer(st.fg, line))
  }

  function CleanBg(st: State, line: seq<int16>, rx: int): int
    requires |line| == |st.fg|
  {
    rx - Answer(st.bg, line)
  }

  /** The state with the delay line, the power and the levels brought up to date. */
  function Measured(st: State, x: Input): State {
    hide Answer, Power, Track;
    var (dc, rx) := Received(st, x);
    var tx := x.tx / 2;
    var line := Pushed(st.line, tx);
    st.(dc := dc, line := line, pstates := Power(st.pstates, tx, st.line[|st.line| - 1], |st.fg|),
        ltx := Track(st.ltx, tx), lrx := Track(st.lrx, rx),
        lclean := Track(st.lclean, Clean(st, line, rx)), lcleanBg := Track(st.lcleanBg, CleanBg(st, line, rx)))
  }

  /** The step size exponent: thirty, less two for the adaption constant, less the logarithm of the
      total power. */
  function Shift(pstates: nat, taps: Length): int
  {
    30 - 2 - (TopBit(MIN_TX_POWER_FOR_ADAPTION + pstates) + TopBit(taps))
  }

  /** The background taps after the update: adapted unless the hangover is running. */
  function BackgroundAfter(st: State, x: Input): (bg: seq<int16>)
    ensures |bg| == |st.bg|
  {
    hide Measured, Answer, Factor, Shift, Adapted, Received;
    var m := Measured(st, x);
    assert |Pushed(st.line, x.tx / 2)| == |st.fg|;
    if st.dwell == 0 then
      Adapted(st.bg, Pushed(st.line, x.tx / 2),
              Factor(CleanBg(st, Pushed(st.line, x.tx / 2), Received(st, x).1), Shift(m.pstates, |st.fg|)))
    else st.bg
  }

  /** Near-end speech: the received level is high, and above the transmitted one. */
  predicate DoubleTalk(m: State) {
    m.lrx.level > MIN_RX_POWER_FOR_ADAPTION && m.lrx.level > m.ltx.level
  }

  /** The counter starts over on a detection and then counts down. */
  function DwellAfter(dwell: int, talk: bool): int {
    var d := if talk then DTD_HANGOVER else dwell;
    if d != 0 then d - 1 else d
  }

  /** The background filter does better: its residual is below seven eighths of the foreground's
      and below an eighth of the transmitted level. */
  predicate BackgroundBetter(m: State) {
    8 * m.lcleanBg.level < 7 * m.lclean.level && 8 * m.lcleanBg.level < m.ltx.level
  }

  predicate TransferCondition(st: State, x: Input) {
    var m := Measured(st, x);
    x.mode.useAdaption && DwellAfter(st.dwell, DoubleTalk(m)) == 0 && BackgroundBetter(m)
  }

  /** Whether this update copies the background taps to the foreground. */
  predicate Transfers(st: State, x: Input) {
    TransferCondition(st, x) && st.condMet == 6
  }

  /** `echo_can_update` up to its non-linear processing. */
  function Updated(st: State, x: Input): State {
    hide Measured, BackgroundAfter, TransferCondition;
    var m := Measured(st, x);
    var bg := BackgroundAfter(st, x);
    MeasuredKeeps(st, x);
    m.(dwell := DwellAfter(st.dwell, DoubleTalk(m)),
       condMet := if !TransferCondition(st, x) then 0 else if st.condMet == 6 then 6 else st.condMet + 1,
       fg := if Transfers(st, x) then bg else st.fg,
       bg := bg)
  }

  lemma MeasuredKeeps(st: State, x: Input)
    ensures var m := Measured(st, x);
            m.fg == st.fg && m.bg == st.bg && m.dwell == st.dwell && m.condMet == st.condMet
            && m.line == Pushed(st.line, x.tx / 2)
  {
  }

  /** `echo_can_create`. */
  function Created(taps: Length): (st: State)
    ensures |st.fg| == taps
  {
    State(Dc(0, 0), Zeros(taps), 0, QUIET, QUIET, QUIET, QUIET, 0, 0, Zeros(taps), Zeros(taps))
  }

  /** `echo_can_flush`: everything but the count of met conditions starts over. */
  function Flushed(st: State): State {
    Created(|st.fg|).(condMet := st.condMet)
  }

  // ----- runs

  datatype Event = Sample(x: Input) | Flush

  function Next(st: State, e: Event): State {
    match e
    case Sample(x) => Updated(st, x)
    case Flush => Flushed(st)
  }

  /** The state after a run from creation. */
  function After(taps: Length, run: seq<Event>): State
  {
    hide Next;
    if run == [] then Created(taps) else Next(After(taps, run[..|run| - 1]), run[|run| - 1])
  }

  /** What holds in every reachable state. */
  predicate Reachable(st: State, taps: Length) {
    && DcBounded(st.dc)
    && LevelBounded(st.ltx, 16384) && LevelBounded(st.lrx, 16384)
    && LevelBounded(st.lclean, 32768) && LevelBounded(st.lcleanBg, 49152)
    && 0 <= st.dwell < DTD_HANGOVER && 0 <= st.condMet <= 6
    && |st.fg| == taps
  }

  lemma NextStaysReachable(st: State, e: Event, taps: Length)
    requires Reachable(st, taps)
    ensures Reachable(Next(st, e), taps)
  {
    hide DcBounded, DcStep, Track, LevelBounded, Answer, Power, BackgroundAfter, BackgroundBetter;
    match e
    case Flush =>
      QuietIsBounded();
    case Sample(x) =>
      DcStepFits(st.dc, x.rx / 2);
      RangeOfStep(st.dc, x.rx / 2);
      var rx := Received(st, x).1;
      var line := Pushed(st.line, x.tx / 2);
      assert Abs(rx) <= 16384;
      TrackStaysBounded(st.ltx, x.tx / 2, 16384);
      TrackStaysBounded(st.lrx, rx, 16384);
      TrackStaysBounded(st.lclean, Clean(st, line, rx), 32768);
      TrackStaysBounded(st.lcleanBg, CleanBg(st, line, rx), 49152);
  }

  lemma RangeOfStep(dc: Dc, rx: int)
    ensures Abs(DcStep(dc, rx).1) <= 16383
  {
  }

  lemma QuietIsBounded()
    ensures forall top: nat :: LevelBounded(QUIET, top)
    ensures DcBounded(Dc(0, 0))
  {
  }

  /** Over every run: the DC filter stays in its interval, so it never leaves 32 bits; all four levels
      stay below the largest sample they can see; the hangover stays below 600. */
  lemma {:induction false} RunStaysReachable(taps: Length, run: seq<Event>)
    ensures Reachable(After(taps, run), taps)
  {
    hide Reachable, Next;
    if run == [] {
      CreatedIsReachable(taps);
    } else {
      RunStaysReachable(taps, run[..|run| - 1]);
      NextStaysReachable(After(taps, run[..|run| - 1]), run[|run| - 1], taps);
    }
  }

  lemma CreatedIsReachable(taps: Length)
    ensures Reachable(Created(taps), taps)
  {
    hide LevelBounded, DcBounded;
    QuietIsBounded();
  }

  // ----- the delay line, in terms of the run

  /** The halved transmitted sample `i` updates before the end of a run, or silence if there was none
      since creation or the last flush. */
  function Transmitted(run: seq<Event>, i: nat): int16 {
    if run == [] || run[|run| - 1].Flush? then 0
    else if i == 0 then run[|run| - 1].x.tx / 2
    else Transmitted(run[..|run| - 1], i - 1)
  }

  /** Both filters and the adaption always work on the latest samples, newest first. */
  lemma {:induction false} LineIsHistory(taps: Length, run: seq<Event>, i: nat)
    requires i < taps
    ensures |After(taps, run).line| == taps
    ensures After(taps, run).line[i] == Transmitted(run, i)
  {
    hide Measured, BackgroundAfter, TransferCondition, Reachable;
    RunKeepsLength(taps, run);
    if run != [] && run[|run| - 1].Sample? {
      var before, x := run[..|run| - 1], run[|run| - 1].x;
      RunKeepsLength(taps, before);
      MeasuredKeeps(After(taps, before), x);
      if i > 0 {
        LineIsHistory(taps, before, i - 1);
      }
    }
  }

  lemma RunKeepsLength(taps: Length, run: seq<Event>)
    ensures |After(taps, run).fg| == |After(taps, run).line| == taps
  {
    hide After, DcBounded, LevelBounded;
    RunStaysReachable(taps, run);
  }

  /** The adaption of tap `i` from one state to the next, in plain arithmetic. With no hangover the tap moves by
      the product of its transmitted sample with the residual, over two to the `l - 13`, to within one; `l` is the
      logarithm of the total power and the residual what the old taps leave of the received sample. With a
      hangover it does not move. */
  predicate TapFollows(st: State, now: State, x: Input, sample: int, i: nat)
    requires |now.line| == |now.bg| == |st.bg| && i < |st.bg|
  {
    hide Answer, Received, TopBit, Raised, Lowered, Times;
    var residual := Received(st, x).1 - Answer(st.bg, now.line);
    var l := TopBit(MIN_TX_POWER_FOR_ADAPTION + now.pstates) + TopBit(|st.bg|);
    var move := Times(Raised(l), Times(sample, residual));
    if st.dwell != 0 then now.bg[i] == st.bg[i]
    else
      Abs(move) <= Times(Lowered(l), 0x7FFE - Abs(st.bg[i])) ==>
        Abs(Times(Lowered(l), Distanced(now.bg[i], st.bg[i])) - move) <= Lowered(l)
  }

  /** In every run every background tap follows this law, with the sample that was transmitted `i` updates
      before, as long as the move stays inside sixteen bits. */
  lemma AdaptionLaw(taps: Length, run: seq<Event>, x: Input, i: nat)
    requires i < taps
    ensures |After(taps, run).bg| == |After(taps, run + [Sample(x)]).bg| == taps
    ensures |After(taps, run + [Sample(x)]).line| == taps
    ensures TapFollows(After(taps, run), After(taps, run + [Sample(x)]), x, Transmitted(run + [Sample(x)], i), i)
  {
    hide After, Updated, Transmitted, TapFollows;
    RunKeepsLength(taps, run);
    RunKeepsLength(taps, run + [Sample(x)]);
    LineIsHistory(taps, run + [Sample(x)], i);
    TransmittedIsHalved(run + [Sample(x)], i);
    LastUpdate(taps, run, x);
    UpdateFollows(After(taps, run), x, i);
  }

  lemma UpdateFollows(st: State, x: Input, i: nat)
    requires i < |st.bg| && -0x4000 <= Updated(st, x).line[i] < 0x4000
    ensures |Updated(st, x).bg| == |Updated(st, x).line| == |st.bg|
    ensures TapFollows(st, Updated(st, x), x, Updated(st, x).line[i], i)
  {
    hide Updated, Answer, Received, TopBit, Raised, Lowered, Times, AdaptedTap, Factor;
    UpdatedBackground(st, x);
    UpdateKeepsLength(st, x);
    var now := Updated(st, x);
    var residual := Received(st, x).1 - Answer(st.bg, now.line);
    var l := TopBit(MIN_TX_POWER_FOR_ADAPTION + now.pstates) + TopBit(|st.bg|);
    if st.dwell == 0
       && Abs(Times(Raised(l), Times(now.line[i], residual))) <= Times(Lowered(l), 0x7FFE - Abs(st.bg[i])) {
      TapMoves(st.bg[i], now.line[i], residual, l);
    }
  }

  lemma UpdateKeepsLength(st: State, x: Input)
    ensures |Updated(st, x).bg| == |Updated(st, x).line| == |Updated(st, x).fg| == |st.fg|
  {
    hide Measured, BackgroundAfter, TransferCondition;
    MeasuredKeeps(st, x);
  }

  lemma TransmittedIsHalved(run: seq<Event>, i: nat)
    ensures -0x4000 <= Transmitted(run, i) < 0x4000
  {
  }

  lemma LastUpdate(taps: Length, run: seq<Event>, x: Input)
    ensures After(taps, run + [Sample(x)]) == Updated(After(taps, run), x)
  {
    hide Updated;
    assert (run + [Sample(x)])[..|run|] == run;
  }

  /** The background taps of an update, with the step size written out. */
  lemma UpdatedBackground(st: State, x: Input)
    ensures var now := Updated(st, x);
            && now.line == Pushed(st.line, x.tx / 2)
            && (st.dwell != 0 ==> now.bg == st.bg)
            && (st.dwell == 0 ==> forall i :: 0 <= i < |st.bg| ==>
                  now.bg[i] == AdaptedTap(st.bg[i], now.line[i],
                                          Factor(Received(st, x).1 - Answer(st.bg, now.line),
                                                 28 - (TopBit(MIN_TX_POWER_FOR_ADAPTION + now.pstates)
                                                       + TopBit(|st.fg|)))))
  {
    hide Measured, TransferCondition, Pushed, Received, Answer, AdaptedTap, Factor, TopBit;
    MeasuredKeeps(st, x);
  }

  // ----- the running power, in terms of the run

  function Energy(line: seq<int16>): nat {
    if line == [] then 0 else Energy(line[..|line| - 1]) + Square(line[|line| - 1])
  }

  function Square(x: int): nat {
    if x < 0 then (-x) * (-x) else x * x
  }

  /** How many updates there were since creation or the last flush. */
  function Age(run: seq<Event>): nat {
    if run == [] || run[|run| - 1].Flush? then 0 else Age(run[..|run| - 1]) + 1
  }

  lemma {:induction false} EnergyOfFront(x: int16, line: seq<int16>)
    ensures Energy([x] + line) == Square(x) + Energy(line)
  {
    hide Square;
    if line == [] {
      assert ([x] + line)[..0] == [];
    } else {
      EnergyOfFront(x, line[..|line| - 1]);
      assert ([x] + line)[..|line|] == [x] + line[..|line| - 1];
    }
  }

  lemma EnergyOfPushed(line: seq<int16>, x: int16)
    requires line != []
    ensures Energy(Pushed(line, x)) == Energy(line) + Square(x) - Square(line[|line| - 1])
  {
    hide Square;
    EnergyOfFront(x, line[..|line| - 1]);
  }

  /** One step of the power is off by at most the half that it rounds by; cutting it off at zero only helps. */
  lemma PowerStep(p: nat, new_: int, old_: int, taps: Length, energy: int, slack: nat)
    requires Abs(Times(Pow2(TopBit(taps)), p) - energy) <= slack
    requires energy + Square(new_) - Square(old_) >= 0
    ensures Abs(Times(Pow2(TopBit(taps)), Power(p, new_, old_, taps)) - (energy + Square(new_) - Square(old_)))
         <= slack + Pow2(TopBit(taps) - 1)
  {
    hide Pow2, TopBit;
    Log2TapsIsPositive(taps);
    var h := Pow2(TopBit(taps) - 1);
    Pow2Add(TopBit(taps) - 1, 1);
    Pow2Values();
    var d := Times(new_, new_) - Times(old_, old_);
    SquareIs(new_);
    SquareIs(old_);
    var q := (d + h) / (2 * h);
    RoundedQuotient(d, h);
    TimesAdds(2 * h, p, q);
    if p + q < 0 {
      MulMono(2 * h, -(p + q), 2 * h, -(p + q));
      NegatedTimes(2 * h, p + q);
    }
  }

  lemma SquareIs(x: int)
    ensures Square(x) == Times(x, x)
  {
  }

  lemma RoundedQuotient(d: int, h: nat)
    requires h > 0
    ensures Abs(Times(2 * h, (d + h) / (2 * h)) - d) <= h
  {
    var q, rest := (d + h) / (2 * h), (d + h) % (2 * h);
    assert d + h == q * (2 * h) + rest;
    assert Times(2 * h, q) == q * (2 * h);
  }

  lemma TimesAdds(k: int, a: int, b: int)
    ensures Times(k, a + b) == Times(k, a) + Times(k, b) && Times(k, 0) == 0 && Times(k, 1) == k
  {
  }

  lemma NegatedTimes(k: int, a: int)
    ensures Times(k, a) == -(k * (-a))
  {
  }

  /** Over every run the running power is the energy of the delay line over the power of two below its length,
      to within a half for every update since the last flush. */
  lemma {:induction false} PowerIsEnergy(taps: Length, run: seq<Event>)
    ensures Abs(Times(Pow2(TopBit(taps)), After(taps, run).pstates) - Energy(After(taps, run).line))
         <= Times(Pow2(TopBit(taps) - 1), Age(run))
  {
    hide After, Updated, Power, Energy, Times, Pow2, TopBit, Square, Pushed, Age;
    if run == [] || run[|run| - 1].Flush? {
      QuietHasNoPower(taps, run);
    } else {
      var before, x := run[..|run| - 1], run[|run| - 1].x;
      assert run == before + [Sample(x)];
      var st := After(taps, before);
      Log2TapsIsPositive(taps);
      PowerIsEnergy(taps, before);
      LastUpdate(taps, before, x);
      UpdatedPower(st, x);
      RunKeepsLength(taps, before);
      EnergyOfPushed(st.line, x.tx / 2);
      TimesNotNegative(Pow2(TopBit(taps) - 1), Age(before));
      PowerStep(st.pstates, x.tx / 2, st.line[|st.line| - 1], taps, Energy(st.line),
                Times(Pow2(TopBit(taps) - 1), Age(before)));
      OlderByOne(run);
      TimesAdds(Pow2(TopBit(taps) - 1), Age(before), 1);
    }
  }

  lemma TimesNotNegative(a: nat, b: nat)
    ensures Times(a, b) >= 0
  {
  }

  lemma OlderByOne(run: seq<Event>)
    requires run != [] && run[|run| - 1].Sample?
    ensures Age(run) == Age(run[..|run| - 1]) + 1
  {
  }

  lemma UpdatedPower(st: State, x: Input)
    ensures var now := Updated(st, x);
            && now.line == Pushed(st.line, x.tx / 2)
            && now.pstates == Power(st.pstates, x.tx / 2, st.line[|st.line| - 1], |st.fg|)
  {
    hide BackgroundAfter, TransferCondition, Power, Pushed;
  }

  lemma QuietHasNoPower(taps: Length, run: seq<Event>)
    requires run == [] || run[|run| - 1].Flush?
    ensures After(taps, run).pstates == 0 && Energy(After(taps, run).line) == 0 && Age(run) == 0
    ensures forall k: int :: Times(k, 0) == 0
  {
    hide Updated;
    EnergyOfZeros(taps);
    if run != [] {
      RunKeepsLength(taps, run[..|run| - 1]);
    }
  }

  lemma {:induction false} EnergyOfZeros(n: nat)
    ensures Energy(Zeros(n)) == 0
  {
    if n > 0 {
      EnergyOfZeros(n - 1);
      assert Zeros(n)[..n - 1] == Zeros(n - 1);
    }
  }

  // ----- the hangover, in terms of the run

  /** Whether the last event of a run is an update that detects double talk. */
  predicate Detects(taps: Length, run: seq<Event>) {
    hide After, Measured;
    run != [] && run[|run| - 1].Sample?
    && DoubleTalk(Measured(After(taps, run[..|run| - 1]), run[|run| - 1].x))
  }

  /** How many updates ago double talk was last detected, counting from a flush or from creation:
      0 when the last update did; none when there was no detection. */
  datatype Since = Never | Ago(n: nat)

  function SinceDetection(taps: Length, run: seq<Event>): Since {
    hide Detects;
    if run == [] || run[|run| - 1].Flush? then Never
    else if Detects(taps, run) then Ago(0)
    else
      match SinceDetection(taps, run[..|run| - 1])
      case Never => Never
      case Ago(n) => Ago(n + 1)
  }

  function DwellOf(s: Since): int {
    match s
    case Never => 0
    case Ago(n) => if n < DTD_HANGOVER then DTD_HANGOVER - 1 - n else 0
  }

  /** The counter is exactly the time left since the last detection. */
  lemma {:induction false} DwellIsTimeLeft(taps: Length, run: seq<Event>)
    ensures After(taps, run).dwell == DwellOf(SinceDetection(taps, run))
  {
    hide Measured, DoubleTalk;
    if run != [] {
      DwellIsTimeLeft(taps, run[..|run| - 1]);
    }
  }

  // ----- the transfer, in terms of the run

  /** Whether the transfer condition held in the last update of a run. */
  predicate HeldLast(taps: Length, run: seq<Event>)
    requires run != [] && run[|run| - 1].Sample?
  {
    hide After, TransferCondition;
    TransferCondition(After(taps, run[..|run| - 1]), run[|run| - 1].x)
  }

  /** For how many updates on end, up to the end of the run, the condition has held. Flushes do not
      interrupt the count. */
  function Streak(taps: Length, run: seq<Event>): nat {
    hide HeldLast;
    if run == [] then 0
    else if run[|run| - 1].Flush? then Streak(taps, run[..|run| - 1])
    else if HeldLast(taps, run) then Streak(taps, run[..|run| - 1]) + 1
    else 0
  }

  lemma {:induction false} CounterIsStreak(taps: Length, run: seq<Event>)
    ensures After(taps, run).condMet == if Streak(taps, run) < 6 then Streak(taps, run) else 6
  {
    hide TransferCondition, Measured;
    if run != [] {
      CounterIsStreak(taps, run[..|run| - 1]);
    }
  }

  /** An update transfers if and only if the condition held in it and in at least the six updates
      before it; then the foreground becomes the background, and otherwise it stays. */
  lemma TransferIffSevenHeld(taps: Length, run: seq<Event>, x: Input)
    ensures Transfers(After(taps, run), x) <==> Streak(taps, run + [Sample(x)]) >= 7
    ensures var now := After(taps, run + [Sample(x)]);
            now.fg == if Streak(taps, run + [Sample(x)]) >= 7 then now.bg else After(taps, run).fg
  {
    hide TransferCondition, Measured;
    var longer := run + [Sample(x)];
    assert longer[..|longer| - 1] == run;
    CounterIsStreak(taps, run);
  }

  /** The condition needs the hangover to have run out. */
  lemma HeldMeansNoHangover(taps: Length, run: seq<Event>)
    requires run != [] && run[|run| - 1].Sample? && HeldLast(taps, run)
    ensures After(taps, run).dwell == 0
  {
  }

  /** `k` updates after a detection, with no flush between, the streak is at most `k - 598` long. */
  lemma {:induction false} StreakAfterDetection(taps: Length, run: seq<Event>, k: nat)
    requires k < |run| && Detects(taps, run[..|run| - k])
    requires forall i :: |run| - k <= i < |run| ==> run[i].Sample?
    ensures SinceDetection(taps, run).Ago? && SinceDetection(taps, run).n <= k
    ensures Streak(taps, run) <= if k < 599 then 0 else k - 598
    decreases k
  {
    hide HeldLast, Detects, After;
    assert run[..|run|] == run;
    DetectionIsSample(taps, run[..|run| - k]);
    if k > 0 {
      var before := run[..|run| - 1];
      assert before[..|before| - (k - 1)] == run[..|run| - k];
      StreakAfterDetection(taps, before, k - 1);
    }
    DwellIsTimeLeft(taps, run);
    if HeldLast(taps, run) {
      HeldMeansNoHangover(taps, run);
    }
  }

  lemma DetectionIsSample(taps: Length, run: seq<Event>)
    requires Detects(taps, run)
    ensures run != [] && run[|run| - 1].Sample?
  {
  }

  /** After a double-talk detection the foreground taps stay as they are for that update and the
      next 604, unless the canceller is flushed. */
  lemma {:induction false} ForegroundIsFrozen(taps: Length, run: seq<Event>, k: nat)
    requires k < |run| && k <= 604 && Detects(taps, run[..|run| - k])
    requires forall i :: |run| - k <= i < |run| ==> run[i].Sample?
    ensures After(taps, run).fg == After(taps, run[..|run| - k - 1]).fg
    decreases k
  {
    hide Detects, After, Streak;
    var before := run[..|run| - 1];
    DetectionIsSample(taps, run[..|run| - k]);
    StreakAfterDetection(taps, run, k);
    TransferIffSevenHeld(taps, before, run[|run| - 1].x);
    assert before + [Sample(run[|run| - 1].x)] == run;
    if k > 0 {
      assert before[..|before| - (k - 1)] == run[..|run| - k];
      assert before[..|before| - (k - 1) - 1] == run[..|run| - k - 1];
      ForegroundIsFrozen(taps, before, k - 1);
    }
  }

  /** The condition in terms of the run: adaption is on, the background does better, and the last
      detection is at least 599 updates back. */
  lemma HeldIff(taps: Length, run: seq<Event>)
    requires run != [] && run[|run| - 1].Sample?
    ensures HeldLast(taps, run)
       <==> BetterLast(taps, run) && DwellOf(SinceDetection(taps, run)) == 0
  {
    hide Measured, BackgroundBetter, DoubleTalk;
    DwellIsTimeLeft(taps, run);
  }

  predicate BetterLast(taps: Length, run: seq<Event>)
    requires run != [] && run[|run| - 1].Sample?
  {
    hide After, Measured, BackgroundBetter;
    var x := run[|run| - 1].x;
    x.mode.useAdaption && BackgroundBetter(Measured(After(taps, run[..|run| - 1]), x))
  }

  /** The 605th update after the last detection is the first that can transfer, and it does as soon
      as the background has done better for its last seven updates. */
  lemma FreezeIsTight(taps: Length, run: seq<Event>, x: Input)
    requires SinceDetection(taps, run + [Sample(x)]) == Ago(605)
    requires forall j :: |run| - 5 <= j <= |run| + 1 && j > 0 && (run + [Sample(x)])[j - 1].Sample?
                         ==> BetterLast(taps, (run + [Sample(x)])[..j])
    ensures Transfers(After(taps, run), x)
  {
    hide BetterLast, Transfers, After, Detects;
    var longer := run + [Sample(x)];
    assert longer[..|longer|] == longer;
    StreakBuilds(taps, longer, 6);
    TransferIffSevenHeld(taps, run, x);
  }

  lemma {:induction false} StreakBuilds(taps: Length, run: seq<Event>, j: nat)
    requires j <= 6 && SinceDetection(taps, run).Ago? && SinceDetection(taps, run).n >= 599 + j
    requires forall i :: |run| - j <= i <= |run| && i > 0 && run[i - 1].Sample? ==> BetterLast(taps, run[..i])
    ensures Streak(taps, run) >= j + 1
    decreases j
  {
    hide BetterLast, HeldLast, After, Detects;
    assert run[..|run|] == run;
    HeldIff(taps, run);
    if j > 0 {
      var before := run[..|run| - 1];
      assert forall i :: 0 <= i <= |before| ==> before[..i] == run[..i];
      StreakBuilds(taps, before, j - 1);
    }
  }

  // ----- the C structure

  /** `echo_can_state_t` without its non-linear processing. */
  class EchoCanceller {
    const taps: nat
    const fg: array<int16>
    const bg: array<int16>
    const fgFir: Fir
    const bgFir: Fir
    var currPos: nat
    var pstates: nat
    var rx1: int
    var rx2: int
    var ltxacc: int
    var ltx: int
    var lrxacc: int
    var lrx: int
    var lcleanacc: int
    var lclean: int
    var lcleanBgacc: int
    var lcleanBg: int
    var nonupdateDwell: int
    var condMet: int

    /** The three positions agree, and both rings hold the same samples. */
    ghost predicate Valid()
      reads this, fgFir, bgFir, fgFir.history, bgFir.history
    {
      && taps >= 2 && fg.Length == taps && bg.Length == taps
      && fgFir != bgFir && fgFir.Valid() && bgFir.Valid()
      && fgFir.history.Length == taps && bgFir.history.Length == taps
      && fg != bg && fgFir.history != bgFir.history && {fg, bg} !! {fgFir.history, bgFir.history}
      && currPos == fgFir.currPos == bgFir.currPos
      && fgFir.Line() == bgFir.Line()
    }

    /** Everything the state is made of besides the canceller itself. */
    ghost function Parts(): set<object> {
      {fg, bg, fgFir, bgFir, fgFir.history, bgFir.history}
    }

    ghost function Contents(): State
      requires Valid()
      reads this, fg, bg, fgFir, bgFir, fgFir.history, bgFir.history
    {
      State(Dc(rx1, rx2), fgFir.Line(), pstates, Level(ltxacc, ltx), Level(lrxacc, lrx),
            Level(lcleanacc, lclean), Level(lcleanBgacc, lcleanBg), nonupdateDwell, condMet, fg[..], bg[..])
    }

    /** `echo_can_create`. */
    constructor (taps: Length)
      ensures Valid() && this.taps == taps && Contents() == Created(taps)
      ensures fresh(Parts())
    {
      this.taps := taps;
      fg := new int16[taps](_ => 0);
      bg := new int16[taps](_ => 0);
      fgFir := new Fir(taps);
      bgFir := new Fir(taps);
      currPos, pstates := taps - 1, 0;
      rx1, rx2, ltxacc, ltx, lrxacc, lrx := 0, 0, 0, 0, 0, 0;
      lcleanacc, lclean, lcleanBgacc, lcleanBg := 0, 0, 0, 0;
      nonupdateDwell, condMet := 0, 0;
      new;
      assert fg[..] == Zeros(taps) && bg[..] == Zeros(taps);
    }

    /** The averages and filter memories of `echo_can_flush`. */
    method ResetFilters()
      modifies this`ltxacc, this`ltx, this`lrxacc, this`lrx, this`rx1, this`rx2
      modifies this`lcleanacc, this`lclean, this`lcleanBgacc, this`lcleanBg
      ensures Dc(rx1, rx2) == Dc(0, 0)
      ensures Level(ltxacc, ltx) == Level(lrxacc, lrx) == QUIET
      ensures Level(lcleanacc, lclean) == Level(lcleanBgacc, lcleanBg) == QUIET
    {
      ltxacc, lrxacc, lcleanacc, lcleanBgacc := 0, 0, 0, 0;
      ltx, lrx, lclean, lcleanBg := 0, 0, 0, 0;
      rx1, rx2 := 0, 0;
    }

    /** `echo_can_flush`. */
    method Flush()
      requires Valid()
      modifies this, Parts()
      ensures Valid() && Contents() == Flushed(old(Contents()))
    {
      hide Zeros, LineOf;
      ResetFilters();
      nonupdateDwell := 0;
      fgFir.Flush();
      bgFir.Flush();
      ClearTaps(fg);
      ClearTaps(bg);
      currPos := taps - 1;
      pstates := 0;
    }

    /** The DC filter of `echo_can_update`. */
    method RemoveDc(rx: int) returns (out: int)
      modifies this`rx1, this`rx2
      ensures (Dc(rx1, rx2), out) == DcStep(old(Dc(rx1, rx2)), rx)
    {
      var tmp := rx * 0x8000;
      tmp := tmp - tmp / 16;
      rx1 := rx1 + (-(rx1 / 8) + tmp - rx2);
      var tmp1 := rx1 / 0x8000;
      if tmp1 > 16383 {
        tmp1 := 16383;
      }
      if tmp1 < -16383 {
        tmp1 := -16383;
      }
      out := tmp1;
      rx2 := tmp;
    }

    /** The running power: the oldest sample lies where the next one will be written. */
    method TrackPower(tx: int16)
      requires Valid()
      modifies this`pstates
      ensures Valid()
      ensures pstates == Power(old(pstates), tx, fgFir.Line()[taps - 1], taps)
    {
      hide Times, Pow2, TopBit;
      var log2taps := TopBit(taps);
      Log2TapsIsPositive(taps);
      var old_ := fgFir.history[fgFir.currPos];
      assert old_ == fgFir.Line()[taps - 1];
      var p := pstates + (Times(tx, tx) - Times(old_, old_) + Pow2(log2taps - 1)) / Pow2(log2taps);
      pstates := if p < 0 then 0 else p;
    }

    /** The short-term levels of `echo_can_update`. */
    method TrackLevels(tx: int, rx: int, clean: int, cleanBg: int)
      modifies this`ltxacc, this`ltx, this`lrxacc, this`lrx
      modifies this`lcleanacc, this`lclean, this`lcleanBgacc, this`lcleanBg
      ensures Level(ltxacc, ltx) == Track(old(Level(ltxacc, ltx)), tx)
      ensures Level(lrxacc, lrx) == Track(old(Level(lrxacc, lrx)), rx)
      ensures Level(lcleanacc, lclean) == Track(old(Level(lcleanacc, lclean)), clean)
      ensures Level(lcleanBgacc, lcleanBg) == Track(old(Level(lcleanBgacc, lcleanBg)), cleanBg)
    {
      hide Abs;
      ltxacc := ltxacc + Abs(tx) - ltx;
      ltx := (ltxacc + 16) / 32;
      lrxacc := lrxacc + Abs(rx) - lrx;
      lrx := (lrxacc + 16) / 32;
      lcleanacc := lcleanacc + Abs(clean) - lclean;
      lclean := (lcleanacc + 16) / 32;
      lcleanBgacc := lcleanBgacc + Abs(cleanBg) - lcleanBg;
      lcleanBg := (lcleanBgacc + 16) / 32;
    }

    /** Both filters on the new sample. Their own positions move on at once, the canceller's stays on
        the sample until the end of the update. */
    method RunFilters(tx: int16) returns (echo: int16, echoBg: int16)
      requires Valid()
      modifies fgFir`currPos, bgFir`currPos, fgFir.history, bgFir.history
      ensures fgFir.Valid() && bgFir.Valid() && fgFir.Line() == bgFir.Line() == Pushed(old(fgFir.Line()), tx)
      ensures fgFir.currPos == bgFir.currPos == StepBack(currPos, taps)
      ensures bgFir.Line() == From(bgFir.history[..], currPos)
      ensures echo == Answer(fg[..], fgFir.Line()) && echoBg == Answer(bg[..], fgFir.Line())
    {
      hide Answer, LineOf, From, Pushed;
      echo := fgFir.Filter(fg, tx);
      echoBg := bgFir.Filter(bg, tx);
    }

    /** The adaption of the background taps, while no hangover is running. */
    method AdaptBackground(cleanBg: int)
      requires taps >= 2 && bg.Length == taps && bgFir.history.Length == taps && bg != bgFir.history
      requires currPos < taps
      modifies bg
      ensures bg[..] == Adapted(old(bg[..]), From(bgFir.history[..], currPos), Factor(cleanBg, Shift(pstates, taps)))
    {
      hide TopBit, Factor, Adapted, From;
      var p := MIN_TX_POWER_FOR_ADAPTION + pstates;
      var logP := TopBit(p) + TopBit(taps);
      var shift := 30 - 2 - logP;
      LmsAdapt(bg, bgFir.history, currPos, cleanBg, shift);
    }

    /** The double-talk detection and the transfer logic of `echo_can_update`. */
    method Decide(useAdaption: bool) returns (adapt: bool)
      requires fg.Length == bg.Length && fg != bg
      modifies this`nonupdateDwell, this`condMet, fg
      ensures nonupdateDwell == DwellAfter(old(nonupdateDwell), lrx > MIN_RX_POWER_FOR_ADAPTION && lrx > ltx)
      ensures var met := useAdaption && nonupdateDwell == 0 && 8 * lcleanBg < 7 * lclean && 8 * lcleanBg < ltx;
              && condMet == (if !met then 0 else if old(condMet) == 6 then 6 else old(condMet) + 1)
              && adapt == (met && old(condMet) == 6)
      ensures fg[..] == if adapt then bg[..] else old(fg[..])
    {
      adapt := false;
      if lrx > MIN_RX_POWER_FOR_ADAPTION && lrx > ltx {
        nonupdateDwell := DTD_HANGOVER;
      }
      if nonupdateDwell != 0 {
        nonupdateDwell := nonupdateDwell - 1;
      }
      if useAdaption && nonupdateDwell == 0 && 8 * lcleanBg < 7 * lclean && 8 * lcleanBg < ltx {
        if condMet == 6 {
          adapt := true;
          StoreTaps(bg[..], fg);
        } else {
          condMet := condMet + 1;
        }
      } else {
        condMet := 0;
      }
    }

    /** Everything before the adaption: DC filter, power, filters and levels. */
    method Measure(x: Input) returns (cleanBg: int)
      requires Valid()
      modifies this`rx1, this`rx2, this`pstates, this`ltxacc, this`ltx, this`lrxacc, this`lrx
      modifies this`lcleanacc, this`lclean, this`lcleanBgacc, this`lcleanBg
      modifies fgFir`currPos, bgFir`currPos, fgFir.history, bgFir.history
      ensures fgFir.Valid() && bgFir.Valid() && fgFir.currPos == bgFir.currPos == StepBack(currPos, taps)
      ensures fgFir.Line() == bgFir.Line() == From(bgFir.history[..], currPos)
      ensures var st, m := old(Contents()), Measured(old(Contents()), x);
              && fgFir.Line() == m.line && Dc(rx1, rx2) == m.dc && pstates == m.pstates
              && Level(ltxacc, ltx) == m.ltx && Level(lrxacc, lrx) == m.lrx
              && Level(lcleanacc, lclean) == m.lclean && Level(lcleanBgacc, lcleanBg) == m.lcleanBg
              && cleanBg == CleanBg(st, Pushed(st.line, x.tx / 2), Received(st, x).1)
    {
      hide DcStep, Track, Power, Answer, LineOf, From, Pushed, ToInt16;
      var tx: int16, rx: int := x.tx / 2, x.rx / 2;
      if x.mode.useRxHpf {
        rx := RemoveDc(rx);
      }
      TrackPower(tx);
      var echo, echoBg := RunFilters(tx);
      var clean: int := ToInt16(rx - echo);
      cleanBg := rx - echoBg;
      TrackLevels(tx, rx, clean, cleanBg);
    }

    /** `echo_can_update` up to its non-linear processing, and the step of its own position. */
    method Update(x: Input) returns (adapt: bool)
      requires Valid()
      modifies this, Parts()
      ensures Valid() && Contents() == Updated(old(Contents()), x)
      ensures adapt == Transfers(old(Contents()), x)
    {
      hide Measured, Received, CleanBg, Adapted, LineOf, From, Pushed, Factor, Shift;
      ghost var st := Contents();
      MeasuredKeeps(st, x);
      var cleanBg := Measure(x);
      if nonupdateDwell == 0 {
        AdaptBackground(cleanBg);
      }
      assert bg[..] == BackgroundAfter(st, x);
      adapt := Decide(x.mode.useAdaption);
      if currPos == 0 {
        currPos := taps;
      }
      currPos := currPos - 1;
    }
  }

  /** The copy of one set of taps. */
  method StoreTaps(from: seq<int16>, into: array<int16>)
    requires into.Length == |from|
    modifies into
    ensures into[..] == from
  {
    var i := 0;
    while i < |from|
      invariant 0 <= i <= |from| && into[..i] == from[..i]
    {
      into[i] := from[i];
      i := i + 1;
    }
  }

  method ClearTaps(a: array<int16>)
    modifies a
    ensures a[..] == Zeros(a.Length)
  {
    var i := 0;
    while i < a.Length
      invariant 0 <= i <= a.Length && forall j :: 0 <= j < i ==> a[j] == 0
    {
      a[i] := 0;
      i := i + 1;
    }
  }
}
