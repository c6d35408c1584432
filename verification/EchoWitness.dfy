/** A run of the echo canceller on which the foreground changes at the first update at which
    `EchoControl` allows it after a double-talk detection: the bound of 604 updates is reached. */
module EchoWitness {
  import opened EchoControl
  import opened EchoFilter
  import opened FixedPoint

  function Loud(): Input {
    Input(Mode(false, true), 2048, 4200)
  }

  function Steady(): Input {
    Input(Mode(false, true), 32767, 16798)
  }

  /** A canceller of two taps: one update that adapts the background and detects double talk, and then
      `n` updates with one and the same signal, which the background cancels exactly. */
  function Witness(n: nat): (run: seq<Event>)
    ensures |run| == n + 1 && run[0] == Sample(Loud()) && run[..1] == [Sample(Loud())]
    ensures forall i :: 1 <= i <= n ==> run[i] == Sample(Steady())
  {
    if n == 0 then [Sample(Loud())] else Witness(n - 1) + [Sample(Steady())]
  }

  lemma WitnessPrefix(n: nat, k: nat)
    requires k <= n
    ensures Witness(n)[..k + 1] == Witness(k)
  {
    var a, b := Witness(n)[..k + 1], Witness(k);
    assert forall i :: 0 <= i <= k ==> a[i] == b[i];
  }

  // ----- the first update

  lemma FirstAnswer(taps: seq<int16>, line: seq<int16>)
    requires |taps| == |line| == 2
    ensures Answer(taps, line) == ToInt16((Times(taps[0], line[0]) + Times(taps[1], line[1])) / 0x8000)
  {
    hide Times, ToInt16;
    assert Convolution(taps, line, 1) == Times(taps[1], line[1]) + Convolution(taps, line, 2);
  }

  lemma LogOfTwo()
    ensures TopBit(2) == 1
  {
    TopBitIs(2, 1);
  }

  lemma FirstPower()
    ensures Power(0, 1024, 0, 2) == 524288 && Shift(524288, 2) == 8
  {
    hide TopBit, Pow2;
    LogOfTwo();
    Pow2Values();
    BigPower();
    TopBitIs(524352, 19);
  }

  lemma BigPower()
    ensures Pow2(19) == 524288 && Pow2(20) == 1048576
  {
    Pow2Add(16, 3);
    Pow2Add(16, 4);
    Pow2Values();
  }

  lemma FirstFactor()
    ensures Factor(2100, 8) == 537600
  {
    hide Pow2;
    Pow2Values();
  }

  function AfterLoud(): State {
    State(Dc(0, 0), [1024, 0], 524288, Level(1024, 32), Level(2100, 66), Level(2100, 66), Level(2100, 66), 599, 0,
          [0, 0], [16800, 0])
  }

  lemma LoudMeasured()
    ensures Measured(Created(2), Loud())
         == State(Dc(0, 0), [1024, 0], 524288, Level(1024, 32), Level(2100, 66), Level(2100, 66), Level(2100, 66), 0, 0,
                  [0, 0], [0, 0])
  {
    hide Power, Answer, Shift, ToInt16, DcStep, Track, Clean, CleanBg, Pushed;
    assert Zeros(2) == [0, 0];
    assert Received(Created(2), Loud()) == (Dc(0, 0), 2100);
    LoudResidual();
    LoudLevels();
    FirstPower();
  }

  lemma LoudLevels()
    ensures Track(QUIET, 1024) == Level(1024, 32) && Track(QUIET, 2100) == Level(2100, 66)
  {
  }

  lemma LoudAdapts()
    ensures BackgroundAfter(Created(2), Loud()) == [16800, 0]
  {
    hide Measured, Answer, Factor, Shift, Adapted, CleanBg;
    LoudMeasured();
    LoudResidual();
    FirstPower();
    FirstFactor();
    FirstTaps();
    assert Zeros(2) == [0, 0];
    assert Received(Created(2), Loud()).1 == 2100;
  }

  lemma LoudResidual()
    ensures Pushed(Created(2).line, 1024) == [1024, 0]
    ensures Clean(Created(2), [1024, 0], 2100) == CleanBg(Created(2), [1024, 0], 2100) == 2100
  {
    hide Answer, ToInt16;
    assert Zeros(2) == [0, 0];
    FirstAnswer(Zeros(2), [1024, 0]);
  }

  lemma FirstTaps()
    ensures Adapted([0, 0], [1024, 0], 537600) == [16800, 0]
  {
    hide AdaptedTap;
    FirstTap();
    NoStep(0, 537600);
  }

  lemma FirstTap()
    ensures AdaptedTap(0, 1024, 537600) == 16800
  {
  }

  lemma LoudDetects()
    ensures After(2, Witness(0)) == AfterLoud()
    ensures Detects(2, Witness(0))
  {
    hide Measured, BackgroundAfter;
    LoudMeasured();
    LoudAdapts();
    var run := Witness(0);
    assert run[..|run| - 1] == [];
    assert After(2, []) == Created(2);
    assert Zeros(2) == [0, 0];
    assert After(2, run) == Updated(Created(2), Loud());
  }

  // ----- the steady updates

  /** What holds after every steady update before the transfer. */
  predicate Cancelling(st: State) {
    && |st.fg| == 2 && st.fg == [0, 0] && st.bg == [16800, 0]
    && 17375 <= st.ltx.acc && 10433 <= st.lclean.acc
    && st.lrx.acc <= st.ltx.acc && 0 <= st.lcleanBg.acc <= 2100
    && st.ltx.level == (st.ltx.acc + 16) / 32 && st.lrx.level == (st.lrx.acc + 16) / 32
    && st.lclean.level == (st.lclean.acc + 16) / 32 && st.lcleanBg.level == (st.lcleanBg.acc + 16) / 32
  }

  /** The state before a steady update: after the first update, or a steady one. */
  predicate Ready(st: State) {
    st == AfterLoud() || Cancelling(st)
  }

  lemma SteadyAnswers(st: State)
    requires Ready(st)
    ensures var line := Pushed(st.line, 16383);
            && |line| == 2 && Clean(st, line, 8399) == 8399 && CleanBg(st, line, 8399) == 0
  {
    hide Answer;
    var line := Pushed(st.line, 16383);
    FirstAnswer(st.fg, line);
    FirstAnswer(st.bg, line);
  }

  lemma NothingToAdapt(shift: int)
    ensures Factor(0, shift) == 0
  {
    hide Pow2;
    if shift <= 0 {
      Quotient(0, Pow2(-shift), 0, 0);
    }
  }

  lemma SteadyAdaptsNothing(st: State)
    requires Ready(st)
    ensures BackgroundAfter(st, Steady()) == [16800, 0]
  {
    hide Measured, Answer, Factor, Shift, Clean, CleanBg, AdaptedTap, Ready;
    SteadyAnswers(st);
    ReadyTaps(st);
    NothingToAdapt(Shift(Measured(st, Steady()).pstates, |st.fg|));
    var line := Pushed(st.line, 16383);
    NoStep(16800, line[0]);
    NoStep(0, line[1]);
  }

  lemma ReadyTaps(st: State)
    requires Ready(st)
    ensures |st.fg| == 2 && st.bg == [16800, 0]
  {
  }

  lemma NoStep(tap: int16, x: int)
    ensures IsInt16(x) ==> AdaptedTap(tap, x, 0) == tap
    ensures AdaptedTap(tap, 0, x) == tap
  {
  }

  /** A steady update keeps the levels in place: the background is better, and nobody speaks. */
  lemma SteadyMeasured(st: State)
    requires Ready(st)
    ensures var m := Measured(st, Steady());
            && BackgroundBetter(m) && !DoubleTalk(m)
            && 17375 <= m.ltx.acc && 10433 <= m.lclean.acc
            && m.lrx.acc <= m.ltx.acc && 0 <= m.lcleanBg.acc <= 2100
            && m.ltx.level == (m.ltx.acc + 16) / 32 && m.lrx.level == (m.lrx.acc + 16) / 32
            && m.lclean.level == (m.lclean.acc + 16) / 32 && m.lcleanBg.level == (m.lcleanBg.acc + 16) / 32
  {
    hide Answer, Power, Clean, CleanBg;
    SteadyAnswers(st);
  }

  lemma SteadyStep(st: State)
    requires Ready(st)
    ensures var next := Updated(st, Steady());
            next.fg == [0, 0] ==> Cancelling(next)
  {
    hide Measured, BackgroundAfter, TransferCondition, Ready;
    SteadyMeasured(st);
    SteadyAdaptsNothing(st);
  }

  /** As long as the foreground cannot have changed, the run goes on like this, without another
      detection. */
  lemma {:induction false} SteadyRun(n: nat)
    requires n <= 604
    ensures Ready(After(2, Witness(n))) && After(2, Witness(n)).fg == [0, 0]
    ensures SinceDetection(2, Witness(n)) == Ago(n)
    ensures n > 0 ==> BetterLast(2, Witness(n))
  {
    hide Ready, Updated, Detects, After, Cancelling;
    WitnessPrefix(n, 0);
    LoudDetects();
    if n == 0 {
      LoudIsReady();
      assert SinceDetection(2, Witness(0)) == Ago(0);
    } else {
      SteadyRun(n - 1);
      var run := Witness(n);
      var st := After(2, Witness(n - 1));
      assert run[..|run| - 1] == Witness(n - 1);
      ForegroundIsFrozen(2, run, n);
      CreatedIsSilent();
      assert run[..0] == [];
      SteadyNext(n);
      SteadyStep(st);
      MakeReady(After(2, run));
    }
  }

  lemma LoudIsReady()
    ensures Ready(AfterLoud()) && AfterLoud().fg == [0, 0]
  {
  }

  lemma MakeReady(st: State)
    requires Cancelling(st)
    ensures Ready(st)
  {
  }

  lemma CreatedIsSilent()
    ensures After(2, []).fg == [0, 0]
  {
    assert Zeros(2) == [0, 0];
  }

  /** The last update of the run, from the state before it. */
  lemma SteadyNext(n: nat)
    requires n > 0 && Ready(After(2, Witness(n - 1)))
    ensures After(2, Witness(n)) == Updated(After(2, Witness(n - 1)), Steady())
    ensures !Detects(2, Witness(n)) && BetterLast(2, Witness(n))
  {
    hide Ready, Updated, Measured, BackgroundBetter, DoubleTalk;
    var run := Witness(n);
    assert run[..|run| - 1] == Witness(n - 1);
    SteadyMeasured(After(2, Witness(n - 1)));
  }

  /** On this run the 605th update after the detection does change the foreground. */
  lemma FreezeEnds()
    ensures Detects(2, Witness(604)[..1]) && (forall i :: 0 <= i <= 604 ==> Witness(604)[i].Sample?)
    ensures Transfers(After(2, Witness(604)), Steady())
    ensures After(2, Witness(604)).fg == [0, 0] && After(2, Witness(605)).fg == [16800, 0]
  {
    hide Detects, Transfers, After, BetterLast, Updated, Ready;
    WitnessPrefix(604, 0);
    LoudDetects();
    var run := Witness(604);
    var longer := run + [Sample(Steady())];
    assert longer == Witness(605);
    SteadyRun(604);
    SteadyNext(605);
    assert SinceDetection(2, longer) == Ago(605) by { assert longer[..|longer| - 1] == run; }
    forall j | |run| - 5 <= j <= |run| + 1 && j > 0
      ensures BetterLast(2, longer[..j])
    {
      WitnessPrefix(605, j - 1);
      if j - 1 <= 604 {
        SteadyRun(j - 1);
      }
    }
    FreezeIsTight(2, run, Steady());
    UpdateOfTransfer(After(2, run), Steady());
    SteadyAdaptsNothing(After(2, run));
  }

  lemma UpdateOfTransfer(st: State, x: Input)
    requires Transfers(st, x)
    ensures Updated(st, x).fg == BackgroundAfter(st, x)
  {
  }
}
