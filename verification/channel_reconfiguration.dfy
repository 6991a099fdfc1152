/** Reconfiguration of the additional uplink channels of a device in batches
    (internal/maccommand/new_channel.go and requestCustomChannelReconfiguration in
    internal/downlink/data/data.go).
 */
module ChannelReconfiguration {
  import opened Options
  import opened Common

  datatype Channel = Channel(frequency: int, minDR: int, maxDR: int)

  datatype Request = Request(chIndex: int, channel: Channel)

  datatype Answer = Answer(frequencyOK: bool, dataRateRangeOK: bool)

  const BATCH_SIZE: nat := 3

  /** The device session's channels, enabled channel list and count of refused requests. */
  datatype Channels = Channels(extra: map<int, Channel>, enabled: seq<int>, errors: nat)

  datatype AnswerError = NoAnswers | NothingPending | WrongCount

  ghost function Differing(current: map<int, Channel>, wanted: map<int, Channel>): set<int> {
    set i | i in wanted && (i !in current || current[i] != wanted[i])
  }

  predicate Ascending(s: seq<int>) {
    forall i, j :: 0 <= i < j < |s| ==> s[i] < s[j]
  }

  /** The request sent for a channel: index and data-rates are narrowed to one byte. */
  function RequestFor(i: int, c: Channel): Request {
    Request(i % 256, Channel(c.frequency, c.minDR % 256, c.maxDR % 256))
  }

  /** Band plans whose indices and data-rates fit the request's fields. */
  ghost predicate Representable(wanted: map<int, Channel>) {
    forall i :: i in wanted ==> 0 <= i < 256 && 0 <= wanted[i].minDR < 256 && 0 <= wanted[i].maxDR < 256
  }

  /** indices lists the first differing channels in ascending order, at most max of them. */
  ghost predicate IsBatch(max: nat, current: map<int, Channel>, wanted: map<int, Channel>, indices: seq<int>) {
    && Ascending(indices)
    && (forall i :: i in indices ==> i in Differing(current, wanted))
    && (forall i, j :: i in Differing(current, wanted) && i !in indices && j in indices ==> j < i)
    && |indices| == if |Differing(current, wanted)| < max then |Differing(current, wanted)| else max
  }

  ghost predicate Requests(requests: seq<Request>, indices: seq<int>, wanted: map<int, Channel>) {
    && |requests| == |indices|
    && forall k :: 0 <= k < |indices| ==>
                     indices[k] in wanted && requests[k] == RequestFor(indices[k], wanted[indices[k]])
  }

  lemma {:induction false} Least(s: set<int>) returns (m: int)
    requires s != {}
    ensures m in s && forall x :: x in s ==> m <= x
  {
    Inhabited(s);
    m :| m in s;
    var rest := s - {m};
    assert s == rest + {m};
    if rest != {} {
      var n := Least(rest);
      if n < m {
        m := n;
      }
    }
  }

  /** sort.Ints over the keys of the map. */
  method SortedKeys(m: map<int, Channel>) returns (keys: seq<int>)
    ensures Ascending(keys) && forall i :: i in keys <==> i in m
  {
    keys := [];
    var rest := m.Keys;
    while rest != {}
      invariant rest <= m.Keys
      invariant Ascending(keys)
      invariant forall i :: i in m <==> i in keys || i in rest
      invariant forall i, x :: i in keys && x in rest ==> i < x
      decreases rest
    {
      ghost var least := Least(rest);
      var x :| x in rest && forall y :: y in rest ==> x <= y;
      assert forall k :: 0 <= k < |keys| ==> keys[k] in keys;
      keys, rest := keys + [x], rest - {x};
    }
  }

  lemma {:induction false} AscendingSize(s: seq<int>, elements: set<int>)
    requires Ascending(s) && forall i :: i in s <==> i in elements
    ensures |s| == |elements|
  {
    if s == [] {
      assert forall i :: i in elements ==> i in s;
    } else {
      var last := |s| - 1;
      var front := s[..last];
      assert s == front + [s[last]];
      AscendingSize(front, elements - {s[last]});
    }
  }

  /** The loop over the wanted channels in ascending order: a request for each that differs. */
  method DifferingRequests(current: map<int, Channel>, wanted: map<int, Channel>)
    returns (out: seq<Request>, ghost indices: seq<int>)
    ensures Requests(out, indices, wanted) && Ascending(indices)
    ensures forall i :: i in indices <==> i in Differing(current, wanted)
    ensures |out| == |Differing(current, wanted)|
  {
    out, indices := [], [];
    var numbers := SortedKeys(wanted);
    for k := 0 to |numbers|
      invariant Requests(out, indices, wanted) && Ascending(indices)
      invariant forall i :: i in indices <==> i in numbers[..k] && i in Differing(current, wanted)
    {
      var i := numbers[k];
      assert forall j :: j in numbers[..k] ==> j < i;
      assert forall l :: 0 <= l < |indices| ==> indices[l] in indices;
      if i !in current || current[i].frequency != wanted[i].frequency
         || current[i].minDR != wanted[i].minDR || current[i].maxDR != wanted[i].maxDR {
        out, indices := out + [RequestFor(i, wanted[i])], indices + [i];
      }
      assert numbers[..k + 1] == numbers[..k] + [i];
    }
    assert numbers[..|numbers|] == numbers;
    AscendingSize(indices, Differing(current, wanted));
  }

  /** The lowest differing channels; nil exactly when none differ. */
  method RequestNewChannels(maxChannels: nat, current: map<int, Channel>, wanted: map<int, Channel>)
    returns (block: Option<seq<Request>>, ghost indices: seq<int>)
    ensures IsBatch(maxChannels, current, wanted, indices)
    ensures block == None <==> maxChannels == 0 || Differing(current, wanted) == {}
    ensures block == None <==> indices == []
    ensures block.Some? ==> Requests(block.value, indices, wanted)
  {
    hide Differing, Ascending;
    var out;
    out, indices := DifferingRequests(current, wanted);
    if |out| > maxChannels {
      BatchPrefix(indices, Differing(current, wanted), maxChannels);
      out, indices := out[..maxChannels], indices[..maxChannels];
    }
    block := if |out| == 0 then None else Some(out);
  }

  lemma BatchPrefix(indices: seq<int>, elements: set<int>, max: nat)
    requires Ascending(indices) && (forall i :: i in indices <==> i in elements) && max <= |indices|
    ensures Ascending(indices[..max])
    ensures forall i :: i in indices[..max] ==> i in elements
    ensures forall i, j :: i in elements && i !in indices[..max] && j in indices[..max] ==> j < i
  {
    assert forall m :: 0 <= m < max ==> indices[..max][m] == indices[m];
    forall i, j | i in elements && i !in indices[..max] && j in indices[..max] ensures j < i {
      var k :| 0 <= k < |indices| && indices[k] == i;
      var l :| 0 <= l < max && indices[l] == j;
    }
  }

  predicate Acked(a: Answer) {
    a.frequencyOK && a.dataRateRangeOK
  }

  /** One answer: an acknowledged channel is stored and enabled, a refused one counted. */
  function Apply(c: Channels, r: Request, a: Answer): Channels {
    if Acked(a) then
      Channels(c.extra[r.chIndex := r.channel], if r.chIndex in c.enabled then c.enabled else c.enabled + [r.chIndex],
               0)
    else c.(errors := c.errors + 1)
  }

  function ApplyAll(c: Channels, requests: seq<Request>, answers: seq<Answer>): Channels
    requires |requests| == |answers|
  {
    if requests == [] then c
    else
      var n := |requests| - 1;
      Apply(ApplyAll(c, requests[..n], answers[..n]), requests[n], answers[n])
  }

  class Session {
    var channels: Channels

    constructor (channels: Channels)
      ensures this.channels == channels
    {
      this.channels := channels;
    }

    method HandleNewChannelAns(answers: seq<Answer>, pending: Option<seq<Request>>) returns (error: Option<AnswerError>)
      modifies this
      ensures error == if answers == [] then Some(NoAnswers)
                       else if pending.None? || pending.value == [] then Some(NothingPending)
                       else if |answers| != |pending.value| then Some(WrongCount) else None
      ensures channels == if error.Some? then old(channels) else ApplyAll(old(channels), pending.value, answers)
    {
      if |answers| == 0 {
        return Some(NoAnswers);
      }
      if pending.None? || |pending.value| == 0 {
        return Some(NothingPending);
      }
      var requests := pending.value;
      if |answers| != |requests| {
        return Some(WrongCount);
      }
      for i := 0 to |answers|
        invariant channels == ApplyAll(old(channels), requests[..i], answers[..i])
      {
        assert requests[..i + 1][..i] == requests[..i] && answers[..i + 1][..i] == answers[..i];
        var r := requests[i];
        if answers[i].frequencyOK && answers[i].dataRateRangeOK {
          var found := false;
          for k := 0 to |channels.enabled|
            invariant found <==> r.chIndex in channels.enabled[..k]
          {
            if channels.enabled[k] == r.chIndex {
              found := true;
            }
          }
          var enabled := if found then channels.enabled else channels.enabled + [r.chIndex];
          channels := Channels(channels.extra[r.chIndex := r.channel], enabled, 0);
        } else {
          channels := channels.(errors := channels.errors + 1);
        }
      }
      assert requests[..|answers|] == requests && answers[..|answers|] == answers;
      error := None;
    }

    /** Forgets channels the network no longer wants, then proposes the next batch. */
    method RequestCustomChannelReconfiguration(wanted: map<int, Channel>)
      returns (block: Option<seq<Request>>, ghost indices: seq<int>)
      modifies this
      ensures channels == Cleaned(old(channels), wanted)
      ensures IsBatch(BATCH_SIZE, channels.extra, wanted, indices) && |indices| <= 3
      ensures channels.enabled == old(channels).enabled && channels.errors == old(channels).errors
      ensures forall i :: i in channels.extra <==> i in old(channels).extra && i in wanted
      ensures forall i :: i in channels.extra ==> channels.extra[i] == old(channels).extra[i]
      ensures block == None <==> Differing(channels.extra, wanted) == {}
      ensures block == None <==> indices == []
      ensures block.Some? ==> Requests(block.value, indices, wanted)
    {
      channels := Cleaned(channels, wanted);
      block, indices := RequestNewChannels(BATCH_SIZE, channels.extra, wanted);
    }
  }

  function Cleaned(c: Channels, wanted: map<int, Channel>): Channels {
    c.(extra := map i | i in c.extra && i in wanted :: c.extra[i])
  }

  // Convergence

  ghost function AckedIndices(indices: seq<int>, answers: seq<Answer>): set<int>
    requires |indices| == |answers|
  {
    set k | 0 <= k < |indices| && Acked(answers[k]) :: indices[k]
  }

  function CountAcks(answers: seq<Answer>): nat {
    if answers == [] then 0 else CountAcks(answers[..|answers| - 1]) + if Acked(answers[|answers| - 1]) then 1 else 0
  }

  /** The acknowledged channels, and no others, take their wanted values and are added to the enabled
      list, without duplicates. */
  ghost predicate Progress(c: Channels, d: Channels, wanted: map<int, Channel>, acked: set<int>) {
    && Differing(d.extra, wanted) == Differing(c.extra, wanted) - acked
    && d.extra.Keys == c.extra.Keys + acked
    && (forall i :: i in d.enabled <==> i in c.enabled || i in acked)
    && (NoDuplicates(c.enabled) ==> NoDuplicates(d.enabled))
  }

  lemma ProgressTransitive(c: Channels, b: Channels, d: Channels, wanted: map<int, Channel>, acked: set<int>,
                           acked': set<int>)
    requires Progress(c, b, wanted, acked) && Progress(b, d, wanted, acked')
    ensures Progress(c, d, wanted, acked + acked')
  {
    hide Differing, NoDuplicates;
  }

  /** Every batch of answers, mixed or not, makes this progress. */
  lemma {:induction false} AnswersProgress(c: Channels, wanted: map<int, Channel>, indices: seq<int>,
                                           requests: seq<Request>, answers: seq<Answer>)
    requires Representable(wanted) && Requests(requests, indices, wanted) && |answers| == |requests|
    requires Ascending(indices) && forall k :: 0 <= k < |indices| ==> indices[k] in Differing(c.extra, wanted)
    ensures Progress(c, ApplyAll(c, requests, answers), wanted, AckedIndices(indices, answers))
  {
    if indices == [] {
      assert AckedIndices(indices, answers) == {};
    } else {
      var n := |indices| - 1;
      var before := ApplyAll(c, requests[..n], answers[..n]);
      var acked := AckedIndices(indices[..n], answers[..n]);
      AnswersProgress(c, wanted, indices[..n], requests[..n], answers[..n]);
      AckedStep(indices, answers);
      assert indices[n] in Differing(before.extra, wanted);
      hide Progress, Differing, AckedIndices, NoDuplicates, Representable, Apply, RequestFor, Ascending;
      var after := ApplyAll(c, requests, answers);
      assert after == Apply(before, requests[n], answers[n]);
      if Acked(answers[n]) {
        AckOne(before, wanted, indices[n], answers[n]);
        ProgressTransitive(c, before, after, wanted, acked, {indices[n]});
        assert AckedIndices(indices, answers) == acked + {indices[n]};
      } else {
        RefuseOne(before, wanted, indices[n], answers[n]);
        ProgressTransitive(c, before, after, wanted, acked, {});
        assert acked + {} == acked;
        assert AckedIndices(indices, answers) == acked;
      }
    }
  }

  lemma {:induction false} AckedCount(indices: seq<int>, answers: seq<Answer>)
    requires |indices| == |answers| && Ascending(indices)
    ensures |AckedIndices(indices, answers)| == CountAcks(answers)
  {
    if indices == [] {
      assert AckedIndices(indices, answers) == {};
    } else {
      AckedCount(indices[..|indices| - 1], answers[..|indices| - 1]);
      AckedStep(indices, answers);
      hide AckedIndices;
    }
  }

  lemma AckedStep(indices: seq<int>, answers: seq<Answer>)
    requires |indices| == |answers| && indices != [] && Ascending(indices)
    ensures var n := |indices| - 1; var earlier := AckedIndices(indices[..n], answers[..n]);
            && AckedIndices(indices, answers) == (if Acked(answers[n]) then earlier + {indices[n]} else earlier)
            && indices[n] !in earlier
  {
  }

  lemma AckOne(c: Channels, wanted: map<int, Channel>, i: int, a: Answer)
    requires Representable(wanted) && i in Differing(c.extra, wanted) && Acked(a)
    ensures Progress(c, Apply(c, RequestFor(i, wanted[i]), a), wanted, {i})
  {
    var d := Apply(c, RequestFor(i, wanted[i]), a);
    assert d.extra == c.extra[i := wanted[i]];
    hide RequestFor, Representable, Apply;
    assert Differing(d.extra, wanted) == Differing(c.extra, wanted) - {i};
  }

  lemma RefuseOne(c: Channels, wanted: map<int, Channel>, i: int, a: Answer)
    requires i in Differing(c.extra, wanted) && !Acked(a)
    ensures Progress(c, Apply(c, RequestFor(i, wanted[i]), a), wanted, {})
  {
    hide Differing, NoDuplicates;
  }

  /** A device that refuses every request of a batch adds one refusal per request. */
  lemma {:induction false} RefusedBatchCounts(c: Channels, requests: seq<Request>, answers: seq<Answer>)
    requires |requests| == |answers| && forall k :: 0 <= k < |answers| ==> !Acked(answers[k])
    ensures ApplyAll(c, requests, answers) == c.(errors := c.errors + |requests|)
  {
    if requests != [] {
      RefusedBatchCounts(c, requests[..|requests| - 1], answers[..|requests| - 1]);
    }
  }

  /** The count of refusals is that of the answers since the latest acknowledgement, of this batch or
      an earlier one. */
  lemma {:induction false} ErrorsSinceAck(c: Channels, requests: seq<Request>, answers: seq<Answer>, last: nat)
    requires |requests| == |answers| && last < |answers| && Acked(answers[last])
    requires forall k :: last < k < |answers| ==> !Acked(answers[k])
    ensures ApplyAll(c, requests, answers).errors == |answers| - 1 - last
  {
    var n := |answers| - 1;
    if last < n {
      ErrorsSinceAck(c, requests[..n], answers[..n], last);
    }
  }

  /** A channel counts as acknowledged only when the device accepts both frequency and data-rates. */
  lemma AckedMeans(a: Answer)
    ensures Acked(a) <==> a == Answer(true, true)
  {
  }

  /** One round: clean up, propose a batch, let the device answer it. */
  ghost predicate Round(c: Channels, wanted: map<int, Channel>, answers: seq<Answer>, d: Channels) {
    exists indices, requests :: RoundWith(c, wanted, answers, d, indices, requests)
  }

  ghost predicate RoundWith(c: Channels, wanted: map<int, Channel>, answers: seq<Answer>, d: Channels,
                            indices: seq<int>, requests: seq<Request>) {
    && IsBatch(BATCH_SIZE, Cleaned(c, wanted).extra, wanted, indices)
    && Requests(requests, indices, wanted)
    && |answers| == |requests|
    && d == ApplyAll(Cleaned(c, wanted), requests, answers)
  }

  lemma CleanedDiffers(c: Channels, wanted: map<int, Channel>)
    ensures Differing(Cleaned(c, wanted).extra, wanted) == Differing(c.extra, wanted)
  {
  }

  lemma SizeOfDifference(s: set<int>, t: set<int>)
    requires t <= s
    ensures |s - t| == |s| - |t|
  {
    assert s == (s - t) + t;
  }

  /** The number of differing channels falls by the number of acknowledgements of the round. */
  lemma RoundProgress(c: Channels, wanted: map<int, Channel>, answers: seq<Answer>, d: Channels)
    requires Representable(wanted) && Round(c, wanted, answers, d)
    ensures |Differing(d.extra, wanted)| == |Differing(c.extra, wanted)| - CountAcks(answers)
    ensures d.extra.Keys <= wanted.Keys
    ensures answers == [] <==> Differing(c.extra, wanted) == {}
    ensures |answers| == if |Differing(c.extra, wanted)| < BATCH_SIZE then |Differing(c.extra, wanted)| else BATCH_SIZE
  {
    var indices, requests :| RoundWith(c, wanted, answers, d, indices, requests);
    CleanedDiffers(c, wanted);
    assert forall k :: 0 <= k < |indices| ==> indices[k] in indices;
    AnswersProgress(Cleaned(c, wanted), wanted, indices, requests, answers);
    AckedCount(indices, answers);
    var differing, acked := Differing(c.extra, wanted), AckedIndices(indices, answers);
    assert acked <= differing;
    SizeOfDifference(differing, acked);
  }

  /** The states of consecutive rounds with the device's answers. */
  ghost predicate Rounds(states: seq<Channels>, wanted: map<int, Channel>, answers: seq<seq<Answer>>) {
    && |states| == |answers| + 1
    && forall r :: 0 <= r < |answers| ==> Round(states[r], wanted, answers[r], states[r + 1])
  }

  function TotalAcks(answers: seq<seq<Answer>>): nat {
    if answers == [] then 0 else TotalAcks(answers[..|answers| - 1]) + CountAcks(answers[|answers| - 1])
  }

  /** Whatever the device answers, the channels that still differ are those of the start less all
      acknowledgements so far. */
  lemma {:induction false} DifferingAfterAnyRounds(states: seq<Channels>, wanted: map<int, Channel>,
                                                   answers: seq<seq<Answer>>)
    requires Representable(wanted) && Rounds(states, wanted, answers)
    ensures |Differing(states[|answers|].extra, wanted)| == |Differing(states[0].extra, wanted)| - TotalAcks(answers)
    ensures answers != [] ==> states[|answers|].extra.Keys <= wanted.Keys
  {
    if answers != [] {
      var last := |answers| - 1;
      DifferingAfterAnyRounds(states[..last + 1], wanted, answers[..last]);
      RoundProgress(states[last], wanted, answers[last], states[last + 1]);
    }
  }

  /** The device has exactly the wanted channels once it has acknowledged as many as differed at the start. */
  lemma AnyRoundsConvergeIff(states: seq<Channels>, wanted: map<int, Channel>, answers: seq<seq<Answer>>)
    requires Representable(wanted) && Rounds(states, wanted, answers) && answers != []
    ensures states[|answers|].extra == wanted <==> TotalAcks(answers) == |Differing(states[0].extra, wanted)|
  {
    DifferingAfterAnyRounds(states, wanted, answers);
    NoneDiffers(states[|answers|].extra, wanted);
  }

  lemma NoneDiffers(current: map<int, Channel>, wanted: map<int, Channel>)
    requires current.Keys <= wanted.Keys
    ensures current == wanted <==> |Differing(current, wanted)| == 0
  {
    assert |Differing(current, wanted)| == 0 <==> Differing(current, wanted) == {};
    assert forall i :: i in wanted && (i !in current || current[i] != wanted[i]) ==> i in Differing(current, wanted);
  }

  predicate AllAcked(answers: seq<Answer>) {
    forall k :: 0 <= k < |answers| ==> Acked(answers[k])
  }

  lemma {:induction false} CountAllAcked(answers: seq<Answer>)
    requires AllAcked(answers)
    ensures CountAcks(answers) == |answers|
  {
    if answers != [] {
      CountAllAcked(answers[..|answers| - 1]);
    }
  }

  /** The states of consecutive rounds in which the device acknowledges everything. */
  ghost predicate AckedRounds(states: seq<Channels>, wanted: map<int, Channel>) {
    forall r :: 0 <= r < |states| - 1 ==> AckedRound(states[r], wanted, states[r + 1])
  }

  ghost predicate AckedRound(c: Channels, wanted: map<int, Channel>, d: Channels) {
    exists answers :: AllAcked(answers) && Round(c, wanted, answers, d)
  }

  /** n differing channels are gone after ceil(n / 3) acknowledged rounds, and not earlier. */
  lemma {:induction false} DifferingAfterRounds(states: seq<Channels>, wanted: map<int, Channel>)
    requires Representable(wanted) && states != [] && AckedRounds(states, wanted)
    ensures var n := |Differing(states[0].extra, wanted)|; var left := n - BATCH_SIZE * (|states| - 1);
            |Differing(states[|states| - 1].extra, wanted)| == if left < 0 then 0 else left
    ensures |states| > 1 ==> states[|states| - 1].extra.Keys <= wanted.Keys
  {
    var last := |states| - 1;
    if last > 0 {
      DifferingAfterRounds(states[..last], wanted);
      assert AckedRound(states[last - 1], wanted, states[last]);
      var answers :| AllAcked(answers) && Round(states[last - 1], wanted, answers, states[last]);
      RoundProgress(states[last - 1], wanted, answers, states[last]);
      CountAllAcked(answers);
    }
  }

  /** Then the device has exactly the wanted channels. */
  lemma RoundsConverge(states: seq<Channels>, wanted: map<int, Channel>)
    requires Representable(wanted) && |states| > 1 && AckedRounds(states, wanted)
    ensures states[|states| - 1].extra == wanted <==>
              |Differing(states[0].extra, wanted)| <= BATCH_SIZE * (|states| - 1)
  {
    DifferingAfterRounds(states, wanted);
    NoneDiffers(states[|states| - 1].extra, wanted);
  }

  // A device that refuses

  /** Consecutive rounds that pass the error filter and propose something, all of it refused. */
  ghost predicate RefusedRounds(states: seq<Channels>, wanted: map<int, Channel>, max: nat) {
    forall r :: 0 <= r < |states| - 1 ==> states[r].errors <= max && RefusedRound(states[r], wanted, states[r + 1])
  }

  ghost predicate RefusedRound(c: Channels, wanted: map<int, Channel>, d: Channels) {
    exists answers :: AllRefused(answers) && answers != [] && Round(c, wanted, answers, d)
  }

  predicate AllRefused(answers: seq<Answer>) {
    forall k :: 0 <= k < |answers| ==> !Acked(answers[k])
  }

  /** A refused round counts one error per proposed channel and leaves the differing channels as they were. */
  lemma RefusedRoundCounts(c: Channels, wanted: map<int, Channel>, d: Channels)
    requires RefusedRound(c, wanted, d)
    ensures Differing(d.extra, wanted) == Differing(c.extra, wanted)
    ensures d.errors == c.errors + if |Differing(c.extra, wanted)| < BATCH_SIZE then |Differing(c.extra, wanted)|
                                   else BATCH_SIZE
    ensures d.errors > c.errors
  {
    var answers :| AllRefused(answers) && answers != [] && Round(c, wanted, answers, d);
    var indices, requests :| RoundWith(c, wanted, answers, d, indices, requests);
    CleanedDiffers(c, wanted);
    RefusedBatchCounts(Cleaned(c, wanted), requests, answers);
  }

  /** So, starting without errors, at most the configured maximum plus one blocks are sent, and with n
      channels to change, each round counting k = min(n, 3) of them, no more than max / k + 1. */
  lemma {:induction false} RefusedRoundsBounded(states: seq<Channels>, wanted: map<int, Channel>, max: nat)
    requires |states| > 1 && RefusedRounds(states, wanted, max)
    ensures var n := |Differing(states[0].extra, wanted)|; var k := if n < BATCH_SIZE then n else BATCH_SIZE;
            && 0 < k && states[|states| - 1].errors == states[0].errors + (|states| - 1) * k
            && Differing(states[|states| - 1].extra, wanted) == Differing(states[0].extra, wanted)
            && (|states| - 2) * k <= max - states[0].errors
            && |states| - 1 <= max - states[0].errors + 1
  {
    var last := |states| - 1;
    assert RefusedRound(states[last - 1], wanted, states[last]);
    RefusedRoundCounts(states[last - 1], wanted, states[last]);
    if last > 1 {
      RefusedRoundsBounded(states[..last], wanted, max);
      assert states[..last][last - 1] == states[last - 1];
    }
  }
}
