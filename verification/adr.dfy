/** The default adaptive data-rate algorithm (internal/adr/default.go). SNR values are reals. */
module Adr {
  import opened UplinkSession
  import opened Common

  const REQUIRED_HISTORY: nat := 20

  /** A data-rate that is enabled in the band, and whether it is LoRa with 125 kHz bandwidth. */
  datatype DataRate = DataRate(index: int, lora125: bool)

  datatype Request = Request(adr: bool, dr: int, txPowerIndex: int, nbTrans: int, maxTxPowerIndex: int,
                             requiredSNRForDR: real, installationMargin: real, maxDR: int, history: seq<Uplink>)

  datatype Response = Response(dr: int, txPowerIndex: int, nbTrans: int)

  /** Each step raises the data-rate, then lowers the power; negative steps raise the power. */
  function IdealTxPowerIndexAndDR(nStep: int, txPowerIndex: int, dr: int, maxTxPowerIndex: int, maxDR: int): (int, int)
    decreases if nStep < 0 then -nStep else nStep
  {
    if nStep == 0 then (txPowerIndex, dr)
    else if nStep > 0 then
      if dr < maxDR then IdealTxPowerIndexAndDR(nStep - 1, txPowerIndex, dr + 1, maxTxPowerIndex, maxDR)
      else if txPowerIndex < maxTxPowerIndex
      then IdealTxPowerIndexAndDR(nStep - 1, txPowerIndex + 1, dr, maxTxPowerIndex, maxDR)
      else IdealTxPowerIndexAndDR(nStep - 1, txPowerIndex, dr, maxTxPowerIndex, maxDR)
    else
      IdealTxPowerIndexAndDR(nStep + 1, if txPowerIndex > 0 then txPowerIndex - 1 else txPowerIndex, dr,
                             maxTxPowerIndex, maxDR)
  }

  function Min(a: int, b: int): int {
    if a < b then a else b
  }

  function Max(a: int, b: int): int {
    if a < b then b else a
  }

  /** value raised by at most n, but not beyond the cap, and untouched when already there. */
  function Raise(value: int, n: int, cap: int): int {
    Max(value, Min(value + n, cap))
  }

  /** The closed form: the data-rate is filled up to its cap, what is left of the steps raises the
      power index up to its cap; negative steps lower only the power index, down to zero. */
  lemma {:induction false} StepsClosedForm(nStep: int, tx: int, dr: int, maxTx: int, maxDR: int)
    ensures IdealTxPowerIndexAndDR(nStep, tx, dr, maxTx, maxDR) ==
            if nStep < 0 then (Min(tx, Max(tx + nStep, 0)), dr)
            else (Raise(tx, nStep - (Raise(dr, nStep, maxDR) - dr), maxTx), Raise(dr, nStep, maxDR))
    decreases if nStep < 0 then -nStep else nStep
  {
    if nStep > 0 {
      if dr < maxDR {
        StepsClosedForm(nStep - 1, tx, dr + 1, maxTx, maxDR);
      } else if tx < maxTx {
        StepsClosedForm(nStep - 1, tx + 1, dr, maxTx, maxDR);
      } else {
        StepsClosedForm(nStep - 1, tx, dr, maxTx, maxDR);
      }
    } else if nStep < 0 {
      StepsClosedForm(nStep + 1, if tx > 0 then tx - 1 else tx, dr, maxTx, maxDR);
    }
  }

  /** More steps never mean a lower data-rate or a lower power index. */
  lemma StepsMonotone(n: int, m: int, tx: int, dr: int, maxTx: int, maxDR: int)
    requires n <= m
    ensures IdealTxPowerIndexAndDR(n, tx, dr, maxTx, maxDR).0 <= IdealTxPowerIndexAndDR(m, tx, dr, maxTx, maxDR).0
    ensures IdealTxPowerIndexAndDR(n, tx, dr, maxTx, maxDR).1 <= IdealTxPowerIndexAndDR(m, tx, dr, maxTx, maxDR).1
  {
    StepsClosedForm(n, tx, dr, maxTx, maxDR);
    StepsClosedForm(m, tx, dr, maxTx, maxDR);
  }

  const LOSS_TABLE: seq<seq<int>> := [[1, 1, 2], [1, 2, 3], [2, 3, 3], [3, 3, 3]]

  function NbTrans(current: int, loss: real): (n: int)
    ensures 1 <= n <= 3
  {
    var column := if current < 1 then 0 else if current > 3 then 2 else current - 1;
    var row := if loss < 5.0 then 0 else if loss < 10.0 then 1 else if loss < 30.0 then 2 else 3;
    LOSS_TABLE[row][column]
  }

  /** More loss never means fewer transmissions, and one repetition more or less is taken at a time,
      except that heavy loss goes from one straight to the maximum. */
  lemma NbTransMonotone(current: int, loss: real, more: real)
    requires loss <= more
    ensures NbTrans(current, loss) <= NbTrans(current, more)
    ensures 1 <= current <= 3 && loss < 30.0 ==> -1 <= NbTrans(current, loss) - current <= 1
  {
  }

  /** int(x / 3), which Go truncates towards zero. */
  function StepCount(margin: real): int {
    if margin >= 0.0 then (margin / 3.0).Floor else -((-margin / 3.0).Floor)
  }

  function MaxSNROf(history: seq<Uplink>): (max: real)
    ensures forall i :: 0 <= i < |history| ==> history[i].maxSNR <= max
    ensures max == -999.0 || exists i :: 0 <= i < |history| && history[i].maxSNR == max
  {
    if history == [] then -999.0
    else
      var n := |history| - 1;
      var rest := MaxSNROf(history[..n]);
      if history[n].maxSNR > rest then history[n].maxSNR else rest
  }

  function CountPower(history: seq<Uplink>, tx: int): (count: nat)
    ensures count <= |history|
    ensures count == |history| <==> forall i :: 0 <= i < |history| ==> history[i].txPowerIndex == tx
  {
    if history == [] then 0
    else CountPower(history[..|history| - 1], tx) + if history[|history| - 1].txPowerIndex == tx then 1 else 0
  }

  /** The last enabled 125 kHz LoRa data-rate. */
  function MaxLoRaDR(enabled: seq<DataRate>): int {
    if enabled == [] then 0
    else if enabled[|enabled| - 1].lora125 then enabled[|enabled| - 1].index
    else MaxLoRaDR(enabled[..|enabled| - 1])
  }

  lemma {:induction false} MaxLoRaDRIs(enabled: seq<DataRate>)
    ensures || (MaxLoRaDR(enabled) == 0 && forall i :: 0 <= i < |enabled| ==> !enabled[i].lora125)
            || exists i :: && 0 <= i < |enabled| && enabled[i].lora125 && MaxLoRaDR(enabled) == enabled[i].index
                           && forall j :: i < j < |enabled| ==> !enabled[j].lora125
  {
    if enabled != [] {
      var n := |enabled| - 1;
      if !enabled[n].lora125 {
        MaxLoRaDRIs(enabled[..n]);
        if i :| && 0 <= i < n && enabled[..n][i].lora125 && MaxLoRaDR(enabled[..n]) == enabled[..n][i].index
                && forall j :: i < j < n ==> !enabled[..n][j].lora125 {
          assert forall j :: i < j < n ==> !enabled[..n][j].lora125 && enabled[..n][j] == enabled[j];
          assert enabled[i].lora125;
        } else {
          assert forall i :: 0 <= i < n ==> enabled[..n][i] == enabled[i];
        }
      }
    }
  }

  function Cap(maxDR: int, enabled: seq<DataRate>): int {
    Min(maxDR, MaxLoRaDR(enabled))
  }

  function Loss(history: seq<Uplink>): real {
    if |history| < REQUIRED_HISTORY then 0.0
    else LostPackets(FCnts(history)) as real / |history| as real * 100.0
  }

  /** What the algorithm answers. */
  function Handled(req: Request, enabled: seq<DataRate>): Response {
    if !req.adr then Response(req.dr, req.txPowerIndex, req.nbTrans)
    else
      var cap := Cap(req.maxDR, enabled);
      var dr := Min(req.dr, cap);
      var nbTrans := NbTrans(req.nbTrans, Loss(req.history));
      var nStep := StepCount(MaxSNROf(req.history) - req.requiredSNRForDR - req.installationMargin);
      if nStep < 0 && CountPower(req.history, req.txPowerIndex) != REQUIRED_HISTORY
      then Response(dr, req.txPowerIndex, nbTrans)
      else
        var (tx, dr') := IdealTxPowerIndexAndDR(nStep, req.txPowerIndex, dr, req.maxTxPowerIndex, cap);
        Response(dr', tx, nbTrans)
  }

  method GetMaxSNR(history: seq<Uplink>) returns (snrM: real)
    ensures snrM == MaxSNROf(history)
  {
    snrM := -999.0;
    for i := 0 to |history|
      invariant snrM == MaxSNROf(history[..i])
    {
      assert history[..i + 1][..i] == history[..i];
      if history[i].maxSNR > snrM {
        snrM := history[i].maxSNR;
      }
    }
    assert history[..|history|] == history;
  }

  method GetHistoryCount(history: seq<Uplink>, tx: int) returns (count: nat)
    ensures count == CountPower(history, tx)
  {
    count := 0;
    for i := 0 to |history|
      invariant count == CountPower(history[..i], tx)
    {
      assert history[..i + 1][..i] == history[..i];
      if history[i].txPowerIndex == tx {
        count := count + 1;
      }
    }
    assert history[..|history|] == history;
  }

  /** The same figure as the session's own GetPacketLossPercentage. */
  method GetPacketLossPercentage(history: seq<Uplink>) returns (loss: real)
    ensures loss == Loss(history)
  {
    if |history| < REQUIRED_HISTORY {
      return 0.0;
    }
    hide FCnts;
    var lostPackets, previousFCnt := 0, 0;
    ghost var fCnts := FCnts(history);
    for i := 0 to |history|
      invariant lostPackets == LostPackets(fCnts[..i])
      invariant i > 0 ==> previousFCnt == fCnts[i - 1]
    {
      assert fCnts[..i + 1][..i] == fCnts[..i];
      if i > 0 {
        lostPackets := (lostPackets + (history[i].fCnt - previousFCnt - 1) % UINT32) % UINT32;
      }
      previousFCnt := history[i].fCnt;
    }
    assert fCnts[..|history|] == fCnts;
    loss := lostPackets as real / |history| as real * 100.0;
  }

  method Handle(req: Request, enabled: seq<DataRate>) returns (resp: Response)
    ensures resp == Handled(req, enabled)
    ensures if req.adr then 1 <= resp.nbTrans <= 3 else resp == Response(req.dr, req.txPowerIndex, req.nbTrans)
    ensures resp.txPowerIndex < req.txPowerIndex <==>
              && req.adr && Margin(req) <= -3.0 && req.txPowerIndex > 0
              && CountPower(req.history, req.txPowerIndex) == REQUIRED_HISTORY
    ensures resp.txPowerIndex > req.txPowerIndex ==> Margin(req) >= 3.0 && resp.dr == Cap(req.maxDR, enabled)
    ensures resp.dr < req.dr ==> resp.dr == Cap(req.maxDR, enabled)
    ensures resp.dr > req.dr ==> Margin(req) >= 3.0 && resp.dr <= Cap(req.maxDR, enabled)
  {
    AnswerMeans(req, enabled);
    resp := Response(req.dr, req.txPowerIndex, req.nbTrans);
    if !req.adr {
      return;
    }
    var maxDR := req.maxDR;
    var maxLoRaDR := 0;
    for i := 0 to |enabled|
      invariant maxLoRaDR == MaxLoRaDR(enabled[..i])
    {
      assert enabled[..i + 1][..i] == enabled[..i];
      if enabled[i].lora125 {
        maxLoRaDR := enabled[i].index;
      }
    }
    assert enabled[..|enabled|] == enabled;
    if maxDR > maxLoRaDR {
      maxDR := maxLoRaDR;
    }
    if req.dr > maxDR {
      resp := resp.(dr := maxDR);
    }
    var loss := GetPacketLossPercentage(req.history);
    resp := resp.(nbTrans := NbTrans(req.nbTrans, loss));
    var snrM := GetMaxSNR(req.history);
    var nStep := StepCount(snrM - req.requiredSNRForDR - req.installationMargin);
    if nStep < 0 {
      var count := GetHistoryCount(req.history, req.txPowerIndex);
      if count != REQUIRED_HISTORY {
        return;
      }
    }
    var (tx, dr) := IdealTxPowerIndexAndDR(nStep, resp.txPowerIndex, resp.dr, req.maxTxPowerIndex, maxDR);
    resp := resp.(txPowerIndex := tx, dr := dr);
  }

  // What the answer means

  lemma StepCountMonotone(x: real, y: real)
    requires x <= y
    ensures StepCount(x) <= StepCount(y)
    ensures StepCount(x) < 0 <==> x <= -3.0
    ensures StepCount(x) > 0 <==> x >= 3.0
  {
  }

  /** One step per 3 dB of margin, incomplete ones not counted. */
  lemma StepCountIs(margin: real)
    ensures margin >= 0.0 ==> 3.0 * StepCount(margin) as real <= margin < 3.0 * (StepCount(margin) + 1) as real
    ensures margin <= 0.0 ==> 3.0 * (StepCount(margin) - 1) as real < margin <= 3.0 * StepCount(margin) as real
  {
  }

  /** Up to 5 percent loss take back one repetition, up to 10 keep the number, up to 30 add one, and
      beyond that the most are used; always between one and three. */
  lemma NbTransIs(current: int, loss: real)
    ensures var n := if current < 1 then 1 else if current > 3 then 3 else current;
            NbTrans(current, loss) ==
            if loss < 5.0 then Max(n - 1, 1)
            else if loss < 10.0 then n
            else if loss < 30.0 then Min(n + 1, 3)
            else 3
  {
  }

  /** The entries of the history that were sent with a power index. */
  lemma {:induction false} CountPowerIs(history: seq<Uplink>, tx: int)
    ensures CountPower(history, tx) == |set i | 0 <= i < |history| && history[i].txPowerIndex == tx|
  {
    var at := set i | 0 <= i < |history| && history[i].txPowerIndex == tx;
    if history != [] {
      var n := |history| - 1;
      CountPowerIs(history[..n], tx);
      var before := set i | 0 <= i < n && history[..n][i].txPowerIndex == tx;
      assert at == before + if history[n].txPowerIndex == tx then {n} else {};
    } else {
      assert at == {};
    }
  }

  /** The whole answer: n steps of 3 dB first raise the data-rate to its cap, and what is left of them
      raises the power index to its cap; steps back lower the power index only, and only when all of
      the last 20 frames used it. */
  lemma AnswerIs(req: Request, enabled: seq<DataRate>, n: int, cap: int, dr: int)
    requires req.adr && n == StepCount(Margin(req))
    requires cap == Min(req.maxDR, MaxLoRaDR(enabled)) && dr == Min(req.dr, cap)
    ensures var resp := Handled(req, enabled);
            && resp.nbTrans == NbTrans(req.nbTrans, Loss(req.history))
            && dr <= resp.dr <= cap
            && (n >= 0 ==> resp.dr - dr == Min(n, cap - dr))
            && (n >= 0 && req.txPowerIndex <= req.maxTxPowerIndex ==>
                  resp.txPowerIndex - req.txPowerIndex ==
                  Min(n - (resp.dr - dr), req.maxTxPowerIndex - req.txPowerIndex))
            && (n < 0 ==> resp.dr == dr)
            && (n < 0 && req.txPowerIndex >= 0 ==>
                  resp.txPowerIndex ==
                  if CountPower(req.history, req.txPowerIndex) == 20 then Max(req.txPowerIndex + n, 0)
                  else req.txPowerIndex)
  {
    hide StepCount, CountPower, MaxSNROf, MaxLoRaDR, Loss;
    StepsClosedForm(n, req.txPowerIndex, dr, req.maxTxPowerIndex, cap);
  }

  /** The loss that the number of transmissions is chosen by: of a full history the missing counters per
      entry, in percent. */
  lemma LossIs(history: seq<Uplink>)
    requires StrictlyAscending(FCnts(history))
    ensures |history| < 20 ==> Loss(history) == 0.0
    ensures |history| >= 20 ==> Loss(history) == |Missing(FCnts(history))| as real / |history| as real * 100.0
  {
    if history != [] {
      LostPacketsExact(FCnts(history));
    }
  }

  /** The margin by which the best recent SNR exceeds what the data-rate needs. */
  function Margin(req: Request): real {
    MaxSNROf(req.history) - req.requiredSNRForDR - req.installationMargin
  }

  /** Without ADR nothing changes. With it the number of transmissions is between one and three, and:
      transmit power is raised, by lowering the index, exactly when the margin is 3 dB or more in the
      negative, all of the last 20 frames used the current power, and there is power left; it is
      lowered only once the data-rate is at its cap; the data-rate falls only to the cap. */
  lemma AnswerMeans(req: Request, enabled: seq<DataRate>)
    ensures var resp := Handled(req, enabled);
            && (if req.adr then 1 <= resp.nbTrans <= 3 else resp == Response(req.dr, req.txPowerIndex, req.nbTrans))
            && (resp.txPowerIndex < req.txPowerIndex <==>
                && req.adr && Margin(req) <= -3.0 && req.txPowerIndex > 0
                && CountPower(req.history, req.txPowerIndex) == REQUIRED_HISTORY)
            && (resp.txPowerIndex > req.txPowerIndex ==> Margin(req) >= 3.0 && resp.dr == Cap(req.maxDR, enabled))
            && (resp.dr < req.dr ==> resp.dr == Cap(req.maxDR, enabled))
            && (resp.dr > req.dr ==> Margin(req) >= 3.0 && resp.dr <= Cap(req.maxDR, enabled))
  {
    StepCountMonotone(Margin(req), Margin(req));
    hide StepCount, CountPower, MaxSNROf, MaxLoRaDR, Loss;
    var cap := Cap(req.maxDR, enabled);
    StepsClosedForm(StepCount(Margin(req)), req.txPowerIndex, Min(req.dr, cap), req.maxTxPowerIndex, cap);
  }

  /** A better SNR never means a lower data-rate; nor a higher power, unless only the history with the
      better SNR is complete enough for raising it. */
  lemma AnswerGrowsWithSNR(req: Request, better: Request, enabled: seq<DataRate>)
    requires better == req.(history := better.history) && MaxSNROf(req.history) <= MaxSNROf(better.history)
    ensures Handled(req, enabled).dr <= Handled(better, enabled).dr
    ensures Handled(better, enabled).txPowerIndex < Handled(req, enabled).txPowerIndex ==>
              && Margin(better) <= -3.0
              && CountPower(better.history, req.txPowerIndex) == REQUIRED_HISTORY
              && CountPower(req.history, req.txPowerIndex) != REQUIRED_HISTORY
  {
    StepCountMonotone(Margin(req), Margin(better));
    StepCountMonotone(Margin(better), Margin(better));
    hide StepCount, CountPower, MaxSNROf, MaxLoRaDR;
    var cap := Cap(req.maxDR, enabled);
    var dr := Min(req.dr, cap);
    StepsMonotone(StepCount(Margin(req)), StepCount(Margin(better)), req.txPowerIndex, dr, req.maxTxPowerIndex, cap);
    StepsClosedForm(StepCount(Margin(req)), req.txPowerIndex, dr, req.maxTxPowerIndex, cap);
    StepsClosedForm(StepCount(Margin(better)), req.txPowerIndex, dr, req.maxTxPowerIndex, cap);
  }

  // Runs in which the device adopts every response

  /** One adopted response: the next data-rate. */
  ghost predicate Adopts(dr: int, next: int, maxDR: int, enabled: seq<DataRate>) {
    exists req :: Follows(req, dr, next, maxDR, enabled)
  }

  ghost predicate Follows(req: Request, dr: int, next: int, maxDR: int, enabled: seq<DataRate>) {
    req.dr == dr && req.maxDR == maxDR && next == Handled(req, enabled).dr
  }

  /** One response lowers the data-rate only from above the cap, and then exactly to the cap. */
  lemma ResponseDR(dr: int, next: int, maxDR: int, enabled: seq<DataRate>)
    requires Adopts(dr, next, maxDR, enabled)
    ensures var cap := Cap(maxDR, enabled);
            if dr > cap then next == dr || next == cap else dr <= next <= cap
  {
    var req :| Follows(req, dr, next, maxDR, enabled);
    var cap := Cap(maxDR, enabled);
    if req.adr {
      var nStep := StepCount(MaxSNROf(req.history) - req.requiredSNRForDR - req.installationMargin);
      StepsClosedForm(nStep, req.txPowerIndex, Min(dr, cap), req.maxTxPowerIndex, cap);
    }
  }

  ghost predicate Adopted(drs: seq<int>, maxDR: int, enabled: seq<DataRate>) {
    forall i :: 0 < i < |drs| ==> Adopts(drs[i - 1], drs[i], maxDR, enabled)
  }

  function Changes(drs: seq<int>): nat {
    if |drs| <= 1 then 0 else Changes(drs[..|drs| - 1]) + if drs[|drs| - 1] != drs[|drs| - 2] then 1 else 0
  }

  /** With a fixed cap the data-rate changes at most once when it starts above the cap, and otherwise
      only upwards, so at most as often as there are data-rates up to the cap. */
  lemma {:induction false} ChangesFinitely(drs: seq<int>, maxDR: int, enabled: seq<DataRate>)
    requires drs != [] && Adopted(drs, maxDR, enabled)
    ensures var cap := Cap(maxDR, enabled); var last := drs[|drs| - 1];
            if drs[0] > cap then last in {drs[0], cap} && Changes(drs) == (if last == drs[0] then 0 else 1)
            else drs[0] <= last <= cap && Changes(drs) <= last - drs[0]
  {
    var n := |drs| - 1;
    if n > 0 {
      ChangesFinitely(drs[..n], maxDR, enabled);
      assert Adopts(drs[n - 1], drs[n], maxDR, enabled);
      ResponseDR(drs[n - 1], drs[n], maxDR, enabled);
    }
  }
}
