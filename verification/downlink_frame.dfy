/** Packing of MAC commands and application payload into a downlink (setPHYPayloads in
    internal/downlink/data/data.go; sections 4.3.1.4 and 4.3.1.6 of the LoRaWAN 1.1 specification).
    Encryption, MIC and byte layout of the frame header are not part of the model.
 */
module DownlinkFrame {
  import opened Options
  import opened MacCommand
  import opened DeviceQueue
  import opened NextQueueItem

  const MAX_FOPTS: int := 15

  datatype Body = NoBody | MacCommands(commands: seq<Command>) | Application(bytes: seq<int>)

  datatype Frame = Frame(confirmed: bool, fCnt: int, adr: bool, ack: bool, fPending: bool,
                         fOpts: seq<Command>, fPort: Option<int>, body: Body)

  /** A receive window: how much it can still carry, and the frame built for it. */
  datatype Window = Window(remaining: int, frame: Option<Frame>)

  /** What all windows of a downlink share. more tells that the queue holds further items. */
  datatype Content = Content(blocks: seq<Block>, item: Option<Item>, more: bool, counters: Counters,
                             ack: bool, disableADR: bool)

  function BlockSize(b: Block): nat {
    |Marshal(b.commands)|
  }

  /** Total size of the first n blocks. */
  function PrefixSize(blocks: seq<Block>, n: nat): nat
    requires n <= |blocks|
  {
    if n == 0 then 0 else PrefixSize(blocks, n - 1) + BlockSize(blocks[n - 1])
  }

  function PrefixCommands(blocks: seq<Block>, n: nat): seq<Command>
    requires n <= |blocks|
  {
    if n == 0 then [] else PrefixCommands(blocks, n - 1) + blocks[n - 1].commands
  }

  /** n blocks is the longest prefix that fits into the limit. */
  ghost predicate LongestFit(blocks: seq<Block>, n: nat, limit: int) {
    && n <= |blocks|
    && (n == 0 || PrefixSize(blocks, n) <= limit)
    && (n < |blocks| ==> limit < PrefixSize(blocks, n + 1))
  }

  /** The queue item goes into the frame: nothing else uses the FRMPayload, and it fits. */
  predicate CarriesItem(c: Content, n: nat, limit: int)
    requires n <= |c.blocks|
  {
    && c.item.Some? && PrefixSize(c.blocks, n) <= MAX_FOPTS
    && |c.item.value.payload| <= limit - PrefixSize(c.blocks, n)
  }

  function BodySize(b: Body): nat {
    match b
    case NoBody => 0
    case MacCommands(commands) => |Marshal(commands)|
    case Application(bytes) => |bytes|
  }

  /** The frame for a window with the given limit, n blocks of MAC commands being carried. */
  ghost predicate IsPacked(c: Content, limit: int, n: nat, w: Window)
    requires n <= |c.blocks|
  {
    var size := PrefixSize(c.blocks, n);
    var commands := PrefixCommands(c.blocks, n);
    var carries := CarriesItem(c, n, limit);
    && w.remaining == limit - size - (if carries then |c.item.value.payload| else 0)
    && w.frame.Some?
    && var f := w.frame.value;
       && f.adr == !c.disableADR && f.ack == c.ack
       && f.fOpts == (if size <= MAX_FOPTS then commands else [])
       && f.body == (if size > MAX_FOPTS then MacCommands(commands)
                     else if carries then Application(c.item.value.payload) else NoBody)
       && f.fPort == (if size > MAX_FOPTS then Some(0) else if carries then Some(c.item.value.fPort) else None)
       && f.fCnt == (if carries then c.item.value.fCnt else c.counters.nFCntDown)
       && f.confirmed == (carries && c.item.value.confirmed)
       && f.fPending == (if carries then c.more else if c.item.Some? then true else size <= MAX_FOPTS && c.more)
  }

  /** The window holds the frame with as many blocks as fit. */
  ghost predicate Packs(c: Content, limit: int, w: Window) {
    exists n :: LongestFit(c.blocks, n, limit) && IsPacked(c, limit, n, w)
  }

  /** Builds the frame of every window in place. */
  method SetPHYPayloads(windows: array<Window>, c: Content)
    modifies windows
    ensures forall i :: 0 <= i < windows.Length ==> Packs(c, old(windows[i].remaining), windows[i])
  {
    for i := 0 to windows.Length
      invariant forall j :: i <= j < windows.Length ==> windows[j] == old(windows[j])
      invariant forall j :: 0 <= j < i ==> Packs(c, old(windows[j].remaining), windows[j])
    {
      var w;
      ghost var n;
      w, n := PackWindow(windows[i].remaining, c);
      windows[i] := w;
    }
  }

  method PackWindow(limit: int, c: Content) returns (w: Window, ghost n: nat)
    ensures Packs(c, limit, w)
    ensures LongestFit(c.blocks, n, limit) && IsPacked(c, limit, n, w)
  {
    hide Marshal;
    var remaining := limit;
    var macCommandSize := 0;
    var macCommands := [];
    n := 0;
    for j := 0 to |c.blocks|
      invariant n == j
      invariant macCommandSize == PrefixSize(c.blocks, j) && macCommands == PrefixCommands(c.blocks, j)
      invariant remaining == limit - macCommandSize
      invariant j == 0 || 0 <= remaining
    {
      var s := MacCommand.Size(c.blocks[j]);
      if remaining - s < 0 {
        break;
      }
      remaining := remaining - s;
      macCommandSize := macCommandSize + s;
      macCommands := macCommands + c.blocks[j].commands;
      n := n + 1;
    }
    assert LongestFit(c.blocks, n, limit);
    var frame := Frame(false, c.counters.nFCntDown, !c.disableADR, c.ack, c.more, [], None, NoBody);
    if macCommandSize > MAX_FOPTS {
      frame := frame.(fPending := c.item.Some?, body := MacCommands(macCommands),
                      fPort := Some(0), fCnt := c.counters.nFCntDown);
    }
    if macCommandSize <= MAX_FOPTS {
      frame := frame.(fOpts := macCommands);
      if c.item.Some? && |c.item.value.payload| <= remaining {
        var item := c.item.value;
        frame := frame.(fPort := Some(item.fPort), fCnt := item.fCnt, body := Application(item.payload));
        if item.confirmed {
          frame := frame.(confirmed := true);
        }
        remaining := remaining - |item.payload|;
      } else if c.item.Some? {
        frame := frame.(fPending := true);
      }
    }
    w := Window(remaining, Some(frame));
  }

  lemma {:induction false} MarshalAppend(a: seq<Command>, b: seq<Command>)
    ensures Marshal(a + b) == Marshal(a) + Marshal(b)
  {
    if a == [] {
      assert a + b == b;
    } else {
      assert (a + b)[1..] == a[1..] + b;
      MarshalAppend(a[1..], b);
    }
  }

  lemma {:induction false} PrefixCommandsSize(blocks: seq<Block>, n: nat)
    requires n <= |blocks|
    ensures |Marshal(PrefixCommands(blocks, n))| == PrefixSize(blocks, n)
  {
    if n > 0 {
      PrefixCommandsSize(blocks, n - 1);
      MarshalAppend(PrefixCommands(blocks, n - 1), blocks[n - 1].commands);
    }
  }

  /** How many commands the first n blocks hold. */
  function CountCommands(blocks: seq<Block>, n: nat): nat
    requires n <= |blocks|
  {
    if n == 0 then 0 else CountCommands(blocks, n - 1) + |blocks[n - 1].commands|
  }

  lemma {:induction false} CountGrows(blocks: seq<Block>, m: nat, n: nat)
    requires m <= n <= |blocks|
    ensures CountCommands(blocks, m) <= CountCommands(blocks, n)
  {
    if m < n {
      CountGrows(blocks, m, n - 1);
    }
  }

  /** The carried commands are those of the first n blocks, block after block, each in its order, and
      no others. */
  lemma {:induction false} PrefixCommandsAre(blocks: seq<Block>, n: nat, j: nat)
    requires n <= |blocks|
    ensures |PrefixCommands(blocks, n)| == CountCommands(blocks, n)
    ensures j < n ==> CountCommands(blocks, j) + |blocks[j].commands| <= CountCommands(blocks, n)
    ensures j < n ==>
              PrefixCommands(blocks, n)[CountCommands(blocks, j)..][..|blocks[j].commands|] == blocks[j].commands
  {
    if n > 0 {
      PrefixCommandsAre(blocks, n - 1, j);
      if j < n - 1 {
        var at, size := CountCommands(blocks, j), |blocks[j].commands|;
        var front := PrefixCommands(blocks, n - 1);
        assert PrefixCommands(blocks, n)[at..][..size] == front[at..][..size];
      }
    }
  }

  /** What a frame carries, in bytes and by kind: the item exactly when the MAC commands leave it the
      FRMPayload and enough room; and then the frame has its port, counter and confirmation. */
  lemma FrameMeans(c: Content, limit: int, n: nat, w: Window)
    requires LongestFit(c.blocks, n, limit) && IsPacked(c, limit, n, w)
    ensures var f := w.frame.value; var commands := PrefixCommands(c.blocks, n); var size := |Marshal(commands)|;
            && f.ack == c.ack && f.adr == !c.disableADR
            && (f.body.Application? <==> c.item.Some? && size <= 15 && size + |c.item.value.payload| <= limit)
            && (f.body.Application? ==>
                  && f.body.bytes == c.item.value.payload && f.fPort == Some(c.item.value.fPort)
                  && f.fCnt == c.item.value.fCnt && f.confirmed == c.item.value.confirmed)
            && (!f.body.Application? ==> f.fCnt == c.counters.nFCntDown && !f.confirmed)
            && (if size <= 15 then f.fOpts == commands && !f.body.MacCommands?
                else f.fOpts == [] && f.body == MacCommands(commands) && f.fPort == Some(0))
            && (f.body == NoBody ==> f.fPort == None)
            && (n < |c.blocks| ==> size + |Marshal(c.blocks[n].commands)| > limit)
            && (n > 0 ==> size <= limit)
  {
    PrefixCommandsSize(c.blocks, n);
    hide Marshal;
  }

  lemma {:induction false} PrefixSizeMonotone(blocks: seq<Block>, m: nat, n: nat)
    requires m <= n <= |blocks|
    ensures PrefixSize(blocks, m) <= PrefixSize(blocks, n)
  {
    if m < n {
      PrefixSizeMonotone(blocks, m, n - 1);
    }
  }

  /** No other number of blocks is a longest fit, so the frame of a window is determined; and every
      longer prefix is too large. */
  lemma LongestFitUnique(blocks: seq<Block>, n: nat, m: nat, limit: int)
    requires LongestFit(blocks, n, limit) && m <= |blocks|
    ensures LongestFit(blocks, m, limit) ==> m == n
    ensures n < m ==> limit < PrefixSize(blocks, m)
  {
    if n < m {
      PrefixSizeMonotone(blocks, n + 1, m);
    } else if m < n {
      PrefixSizeMonotone(blocks, m + 1, n);
    }
  }

  /** The limits of the specification: the window's limit bounds FOpts and FRMPayload together, and
      FOpts never exceeds 15 bytes. MAC commands travel on port 0 exactly when they exceed 15 bytes,
      and then exclude the application payload. */
  lemma PackedWithinLimits(c: Content, limit: int, n: nat, w: Window)
    requires 0 <= limit && LongestFit(c.blocks, n, limit) && IsPacked(c, limit, n, w)
    requires c.item.Some? ==> c.item.value.fPort != 0
    ensures var f := w.frame.value;
            && |Marshal(f.fOpts)| <= MAX_FOPTS
            && |Marshal(f.fOpts)| + BodySize(f.body) == limit - w.remaining <= limit
            && (f.fPort == Some(0) <==> MAX_FOPTS < PrefixSize(c.blocks, n))
            && (f.fPort == Some(0) <==> f.body.MacCommands?)
            && (f.body.Application? <==> f.fPort.Some? && f.fPort.value != 0)
            && (f.body.Application? ==> |Marshal(f.fOpts)| + |c.item.value.payload| <= limit)
  {
    PrefixCommandsSize(c.blocks, n);
  }

  /** Pending data is announced exactly when an item known to be queued is not in the frame: the
      first one, or one behind it. The loop that selects the first reports more only with it. */
  lemma PendingIff(c: Content, limit: int, n: nat, w: Window)
    requires LongestFit(c.blocks, n, limit) && IsPacked(c, limit, n, w) && (c.more ==> c.item.Some?)
    ensures w.frame.value.fPending <==> (c.item.Some? && !w.frame.value.body.Application?) || c.more
  {
  }

  /** The counter kinds of a session. Application frames of LoRaWAN 1.1 devices have their own. */
  datatype CounterKind = NetworkCounter | ApplicationCounter

  function KindOf(f: Frame, counters: Counters): CounterKind {
    if f.body.Application? && counters.lorawan11 then ApplicationCounter else NetworkCounter
  }

  function Value(counters: Counters, kind: CounterKind): int {
    if kind == ApplicationCounter then counters.aFCntDown else counters.nFCntDown
  }

  /** The frame carries the current value of the counter of its kind, given the item the selection
      loop found usable. */
  lemma CarriesCurrentCounter(c: Content, limit: int, n: nat, w: Window)
    requires LongestFit(c.blocks, n, limit) && IsPacked(c, limit, n, w)
    requires c.item.Some? ==> c.item.value.fCnt == ExpectedFCnt(c.counters)
    ensures w.frame.value.fCnt == Value(c.counters, KindOf(w.frame.value, c.counters))
  {
  }
}
