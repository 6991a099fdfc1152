/** Which MAC-command blocks are sent (setMACCommands and filterIncompatibleMACCommands in
    internal/downlink/data/data.go) and how refusals are counted (internal/maccommand/link_adr.go).
 */
module MacFilter {
  import opened Options
  import opened Common
  import opened MacCommand

  /** A command that, once present, excludes others from the same downlink. */
  datatype Mapping = Mapping(cid: Byte, incompatible: seq<Byte>)

  const LINK_ADR: Byte := 3
  const NEW_CHANNEL: Byte := 7

  const INCOMPATIBLE: seq<Mapping> := [Mapping(NEW_CHANNEL, [LINK_ADR]), Mapping(LINK_ADR, [NEW_CHANNEL])]

  predicate Has(blocks: seq<Block>, cid: Byte) {
    exists i :: 0 <= i < |blocks| && blocks[i].cid == cid
  }

  /** The blocks, in order, whose command is not among the given ones. */
  function Without(blocks: seq<Block>, cids: set<Byte>): seq<Block> {
    if blocks == [] then []
    else (if blocks[0].cid in cids then [] else [blocks[0]]) + Without(blocks[1..], cids)
  }

  /** The commands that the table excludes from the blocks, its entries taken in order. */
  function Excluded(table: seq<Mapping>, blocks: seq<Block>, cids: set<Byte>): set<Byte> {
    if table == [] then cids
    else
      var m := table[0];
      Excluded(table[1..], blocks,
               if Has(blocks, m.cid) && m.cid !in cids then cids + set c | c in m.incompatible else cids)
  }

  /** No entry of the table has both its command and an incompatible one among the blocks. */
  ghost predicate NoConflict(table: seq<Mapping>, blocks: seq<Block>) {
    forall k, c :: 0 <= k < |table| && c in table[k].incompatible ==> !(Has(blocks, table[k].cid) && Has(blocks, c))
  }

  lemma {:induction false} WithoutHas(blocks: seq<Block>, cids: set<Byte>, cid: Byte)
    ensures Has(Without(blocks, cids), cid) <==> Has(blocks, cid) && cid !in cids
  {
    if blocks != [] {
      WithoutHas(blocks[1..], cids, cid);
      HasCons(blocks[0], blocks[1..], cid);
      assert [blocks[0]] + blocks[1..] == blocks;
      HasCons(blocks[0], Without(blocks[1..], cids), cid);
      assert [] + Without(blocks[1..], cids) == Without(blocks[1..], cids);
    }
  }

  lemma HasCons(b: Block, blocks: seq<Block>, cid: Byte)
    ensures Has([b] + blocks, cid) <==> b.cid == cid || Has(blocks, cid)
  {
    if Has(blocks, cid) {
      var i :| 0 <= i < |blocks| && blocks[i].cid == cid;
      assert ([b] + blocks)[i + 1].cid == cid;
    }
    if b.cid == cid {
      assert ([b] + blocks)[0].cid == cid;
    }
  }

  lemma {:induction false} WithoutAppend(a: seq<Block>, b: seq<Block>, cids: set<Byte>)
    ensures Without(a + b, cids) == Without(a, cids) + Without(b, cids)
  {
    if a == [] {
      assert a + b == b;
    } else {
      assert (a + b)[1..] == a[1..] + b;
      WithoutAppend(a[1..], b, cids);
    }
  }

  lemma {:induction false} WithoutTwice(blocks: seq<Block>, s: set<Byte>, t: set<Byte>)
    ensures Without(Without(blocks, s), t) == Without(blocks, s + t)
  {
    if blocks != [] {
      WithoutTwice(blocks[1..], s, t);
      var rest := Without(blocks[1..], s);
      if blocks[0].cid !in s {
        assert ([blocks[0]] + rest)[1..] == rest;
      } else {
        assert [] + rest == rest;
      }
    }
  }

  lemma {:induction false} WithoutNone(blocks: seq<Block>)
    ensures Without(blocks, {}) == blocks
  {
    if blocks != [] {
      WithoutNone(blocks[1..]);
    }
  }

  /** Deletes every block with the given command, from the back, in place. */
  method DeleteCID(blocks: seq<Block>, cid: Byte) returns (out: seq<Block>)
    ensures out == Without(blocks, {cid})
  {
    out := blocks;
    var i := |blocks| - 1;
    assert blocks[..|blocks|] + [] == blocks;
    while i >= 0
      invariant -1 <= i < |blocks|
      invariant out == blocks[..i + 1] + Without(blocks[i + 1..], {cid})
    {
      ghost var rest := Without(blocks[i + 1..], {cid});
      assert blocks[i..][1..] == blocks[i + 1..];
      assert out[i] == blocks[i] && out[..i] == blocks[..i] && out[i + 1..] == rest;
      assert blocks[..i + 1] + rest == blocks[..i] + ([blocks[i]] + rest);
      if out[i].cid == cid {
        out := out[..i] + out[i + 1..];
      }
      i := i - 1;
    }
  }

  method FilterIncompatibleMACCommands(table: seq<Mapping>, blocks: seq<Block>) returns (out: seq<Block>)
    ensures out == Without(blocks, Excluded(table, blocks, {}))
  {
    out := blocks;
    ghost var cids: set<Byte> := {};
    WithoutNone(blocks);
    for k := 0 to |table|
      invariant out == Without(blocks, cids)
      invariant Excluded(table, blocks, {}) == Excluded(table[k..], blocks, cids)
    {
      assert table[k..][1..] == table[k + 1..];
      var mapping := table[k];
      var seen := Has(out, mapping.cid);
      WithoutHas(blocks, cids, mapping.cid);
      if seen {
        ghost var before := cids;
        for j := 0 to |mapping.incompatible|
          invariant cids == before + set c | c in mapping.incompatible[..j]
          invariant out == Without(blocks, cids)
        {
          WithoutTwice(blocks, cids, {mapping.incompatible[j]});
          out := DeleteCID(out, mapping.incompatible[j]);
          cids := cids + {mapping.incompatible[j]};
        }
        assert mapping.incompatible[..|mapping.incompatible|] == mapping.incompatible;
      }
    }
  }

  lemma {:induction false} ExcludedGrows(table: seq<Mapping>, blocks: seq<Block>, cids: set<Byte>)
    ensures cids <= Excluded(table, blocks, cids)
  {
    if table != [] {
      var m := table[0];
      var next := if Has(blocks, m.cid) && m.cid !in cids then cids + set c | c in m.incompatible else cids;
      ExcludedGrows(table[1..], blocks, next);
    }
  }

  /** For any table the surviving blocks, which keep their order, hold no conflicting pair. */
  lemma {:induction false} FilterResolvesConflicts(table: seq<Mapping>, blocks: seq<Block>, cids: set<Byte>)
    ensures NoConflict(table, Without(blocks, Excluded(table, blocks, cids)))
  {
    if table != [] {
      var m := table[0];
      var next := if Has(blocks, m.cid) && m.cid !in cids then cids + set c | c in m.incompatible else cids;
      var excluded := Excluded(table, blocks, cids);
      ExcludedGrows(table[1..], blocks, next);
      FilterResolvesConflicts(table[1..], blocks, next);
      forall k, c | 0 <= k < |table| && c in table[k].incompatible
        ensures !(Has(Without(blocks, excluded), table[k].cid) && Has(Without(blocks, excluded), c))
      {
        WithoutHas(blocks, excluded, table[k].cid);
        WithoutHas(blocks, excluded, c);
        if k > 0 {
          assert table[k] == table[1..][k - 1];
        }
      }
    }
  }

  /** With the shipped table a new-channel request always wins over a link-ADR request, and nothing
      else is ever dropped. */
  lemma ShippedTable(blocks: seq<Block>)
    ensures Without(blocks, Excluded(INCOMPATIBLE, blocks, {})) ==
            if Has(blocks, NEW_CHANNEL) then Without(blocks, {LINK_ADR}) else blocks
  {
    var second := INCOMPATIBLE[1..];
    assert second == [Mapping(LINK_ADR, [NEW_CHANNEL])] && second[1..] == [];
    var none: set<Byte> := {};
    assert none + (set c | c in [LINK_ADR]) == {LINK_ADR} && none + (set c | c in [NEW_CHANNEL]) == {NEW_CHANNEL};
    var cids := if Has(blocks, NEW_CHANNEL) then {LINK_ADR} else none;
    assert Excluded(INCOMPATIBLE, blocks, none) == Excluded(second, blocks, cids);
    if Has(blocks, NEW_CHANNEL) {
      assert Excluded(second, blocks, cids) == cids;
    } else {
      assert Excluded(second, blocks, cids) == if Has(blocks, LINK_ADR) then {NEW_CHANNEL} else none;
      NothingDropped(blocks, {NEW_CHANNEL});
      NothingDropped(blocks, none);
    }
  }

  lemma {:induction false} NothingDropped(blocks: seq<Block>, cids: set<Byte>)
    requires forall c :: c in cids ==> !Has(blocks, c)
    ensures Without(blocks, cids) == blocks
  {
    if blocks != [] {
      assert blocks[0].cid !in cids;
      forall c | c in cids ensures !Has(blocks[1..], c) {
        assert [blocks[0]] + blocks[1..] == blocks;
        HasCons(blocks[0], blocks[1..], c);
      }
      NothingDropped(blocks[1..], cids);
    }
  }

  // Refusals

  /** The number of refusals counted per command; absent means none. */
  type ErrorCount = map<Byte, nat>

  function Errors(count: ErrorCount, cid: Byte): nat {
    if cid in count then count[cid] else 0
  }

  function Allowed(blocks: seq<Block>, count: ErrorCount, max: nat): seq<Block> {
    if blocks == [] then []
    else (if Errors(count, blocks[0].cid) <= max then [blocks[0]] else []) + Allowed(blocks[1..], count, max)
  }

  function External(blocks: seq<Block>): seq<Block> {
    if blocks == [] then [] else (if blocks[0].external then [blocks[0]] else []) + External(blocks[1..])
  }

  /** The block is one of those given, external if only such are wanted, and not refused too often. */
  predicate Passes(b: Block, blocks: seq<Block>, disableMACCommands: bool, count: ErrorCount, max: nat) {
    && b in blocks && (disableMACCommands ==> b.external)
    && (b.cid in count ==> count[b.cid] <= max)
  }

  lemma {:induction false} ExternalHas(blocks: seq<Block>, b: Block)
    ensures b in External(blocks) <==> b in blocks && b.external
  {
    if blocks != [] {
      ExternalHas(blocks[1..], b);
      assert blocks == [blocks[0]] + blocks[1..];
    }
  }

  lemma {:induction false} AllowedHas(blocks: seq<Block>, count: ErrorCount, max: nat, b: Block)
    ensures b in Allowed(blocks, count, max) <==> b in blocks && (b.cid in count ==> count[b.cid] <= max)
  {
    if blocks != [] {
      AllowedHas(blocks[1..], count, max, b);
      assert blocks == [blocks[0]] + blocks[1..];
    }
  }

  lemma {:induction false} WithoutHolds(blocks: seq<Block>, cids: set<Byte>, b: Block)
    ensures b in Without(blocks, cids) <==> b in blocks && b.cid !in cids
  {
    if blocks != [] {
      WithoutHolds(blocks[1..], cids, b);
      assert blocks == [blocks[0]] + blocks[1..];
    }
  }

  /** The filters of setMACCommands one after the other: only external blocks when the server's own
      are disabled, none with too many refusals, none that conflict. */
  method SetMACCommands(blocks: seq<Block>, disableMACCommands: bool, count: ErrorCount, max: nat)
    returns (out: seq<Block>)
    ensures var allowed := Allowed(if disableMACCommands then External(blocks) else blocks, count, max);
            out == if Has(allowed, NEW_CHANNEL) then Without(allowed, {LINK_ADR}) else allowed
    ensures forall b :: b in out <==>
                          && Passes(b, blocks, disableMACCommands, count, max)
                          && (b.cid == LINK_ADR ==>
                                forall n :: Passes(n, blocks, disableMACCommands, count, max) ==> n.cid != NEW_CHANNEL)
  {
    var current := blocks;
    if disableMACCommands {
      current := KeepExternal(blocks);
    }
    var filtered := KeepAllowed(current, count, max);
    forall b ensures b in filtered <==> Passes(b, blocks, disableMACCommands, count, max) {
      ExternalHas(blocks, b);
      AllowedHas(current, count, max, b);
    }
    forall b ensures b in Without(filtered, {LINK_ADR}) <==> b in filtered && b.cid != LINK_ADR {
      WithoutHolds(filtered, {LINK_ADR}, b);
    }
    ShippedTable(filtered);
    out := FilterIncompatibleMACCommands(INCOMPATIBLE, filtered);
  }

  method KeepExternal(blocks: seq<Block>) returns (out: seq<Block>)
    ensures out == External(blocks)
  {
    out := [];
    for i := 0 to |blocks|
      invariant out + External(blocks[i..]) == External(blocks)
    {
      assert blocks[i..][1..] == blocks[i + 1..];
      if blocks[i].external {
        out := out + [blocks[i]];
      }
    }
  }

  method KeepAllowed(blocks: seq<Block>, count: ErrorCount, max: nat) returns (out: seq<Block>)
    ensures out == Allowed(blocks, count, max)
  {
    hide Errors;
    out := [];
    for i := 0 to |blocks|
      invariant Allowed(blocks, count, max) == out + Allowed(blocks[i..], count, max)
    {
      assert blocks[i..][1..] == blocks[i + 1..];
      ghost var rest := Allowed(blocks[i + 1..], count, max);
      assert out + ([blocks[i]] + rest) == (out + [blocks[i]]) + rest && out + ([] + rest) == out + rest;
      if Errors(count, blocks[i].cid) <= max {
        out := out + [blocks[i]];
      }
    }
  }

  // Each filter decides block by block and keeps the order

  lemma WithoutOne(b: Block, cids: set<Byte>)
    ensures Without([b], cids) == if b.cid in cids then [] else [b]
  {
  }

  lemma ExternalOne(b: Block)
    ensures External([b]) == if b.external then [b] else []
  {
  }

  lemma {:induction false} ExternalAppend(a: seq<Block>, b: seq<Block>)
    ensures External(a + b) == External(a) + External(b)
  {
    if a == [] {
      assert a + b == b;
    } else {
      assert (a + b)[1..] == a[1..] + b;
      ExternalAppend(a[1..], b);
    }
  }

  /** Without a counted refusal a block passes; the maximum itself still does. */
  lemma AllowedOne(b: Block, count: ErrorCount, max: nat)
    ensures Allowed([b], count, max) == if b.cid in count && count[b.cid] > max then [] else [b]
  {
  }

  lemma {:induction false} AllowedAppend(a: seq<Block>, b: seq<Block>, count: ErrorCount, max: nat)
    ensures Allowed(a + b, count, max) == Allowed(a, count, max) + Allowed(b, count, max)
  {
    if a == [] {
      assert a + b == b;
    } else {
      assert (a + b)[1..] == a[1..] + b;
      AllowedAppend(a[1..], b, count, max);
    }
  }

  /** The conflict filter drops a command only for an entry of the table whose command is there. */
  lemma {:induction false} ExcludedOnlyFor(table: seq<Mapping>, blocks: seq<Block>, cids: set<Byte>, c: Byte)
    requires c in Excluded(table, blocks, cids) && c !in cids
    ensures exists k :: 0 <= k < |table| && Has(blocks, table[k].cid) && c in table[k].incompatible
  {
    var m := table[0];
    var next := if Has(blocks, m.cid) && m.cid !in cids then cids + set d | d in m.incompatible else cids;
    if c !in next {
      ExcludedOnlyFor(table[1..], blocks, next, c);
      var k :| 0 <= k < |table[1..]| && Has(blocks, table[1..][k].cid) && c in table[1..][k].incompatible;
      assert table[k + 1] == table[1..][k];
    } else {
      assert Has(blocks, table[0].cid) && c in table[0].incompatible;
    }
  }

  // Answers to link-ADR requests

  datatype LinkADRAns = LinkADRAns(channelMaskACK: bool, dataRateACK: bool, powerACK: bool)

  datatype LinkADRReq = LinkADRReq(dataRate: nat, txPower: nat, nbRep: nat)

  datatype AdrSession = AdrSession(adr: bool, dr: nat, txPowerIndex: nat, nbTrans: nat, enabled: seq<int>,
                                   minSupportedTXPower: nat, maxSupportedTXPower: nat, errors: ErrorCount)

  datatype LinkADRError = NoAnswers | NothingPending | InvalidChannelMask

  /** The bits of all answers together: each is set only if every answer sets it. */
  function Combined(answers: seq<LinkADRAns>): (c: LinkADRAns)
    ensures c.channelMaskACK <==> forall i :: 0 <= i < |answers| ==> answers[i].channelMaskACK
    ensures c.dataRateACK <==> forall i :: 0 <= i < |answers| ==> answers[i].dataRateACK
    ensures c.powerACK <==> forall i :: 0 <= i < |answers| ==> answers[i].powerACK
  {
    if answers == [] then LinkADRAns(true, true, true)
    else
      var n := |answers| - 1;
      var c := Combined(answers[..n]);
      LinkADRAns(c.channelMaskACK && answers[n].channelMaskACK, c.dataRateACK && answers[n].dataRateACK,
                 c.powerACK && answers[n].powerACK)
  }

  /** All three bits, or only the channel mask from a device with ADR disabled. */
  predicate Accepts(s: AdrSession, ack: LinkADRAns) {
    ack.channelMaskACK && ((ack.dataRateACK && ack.powerACK) || !s.adr)
  }

  /** The session after answers with the given combined bits to a block whose last request is req.
      mask is the channel list the band computes from the block, None when it cannot. */
  function AfterLinkADR(s: AdrSession, req: LinkADRReq, mask: Option<seq<int>>, ack: LinkADRAns): AdrSession {
    if Accepts(s, ack) then
      var cleared := s.(errors := s.errors - {LINK_ADR});
      if mask.None? then cleared
      else cleared.(enabled := mask.value, nbTrans := req.nbRep,
                    dr := if ack.dataRateACK then req.dataRate else s.dr,
                    txPowerIndex := if ack.powerACK then req.txPower else s.txPowerIndex)
    else
      var counted := s.(errors := s.errors[LINK_ADR := Errors(s.errors, LINK_ADR) + 1]);
      if ack.powerACK then counted
      else if req.txPower == 0 then counted.(txPowerIndex := 1, minSupportedTXPower := 1)
      else counted.(maxSupportedTXPower := req.txPower - 1)
  }

  /** A block of link-ADR requests that is due, and the device's answers to it if it is sent. */
  datatype Attempt = Attempt(block: Block, last: LinkADRReq, mask: Option<seq<int>>, answers: seq<LinkADRAns>)

  /** How many of the due blocks pass the error filter, the session changing with every answer. */
  function Sent(s: AdrSession, max: nat, attempts: seq<Attempt>): nat
    decreases |attempts|
  {
    if attempts == [] then 0
    else if Allowed([attempts[0].block], s.errors, max) == [] then Sent(s, max, attempts[1..])
    else
      var a := attempts[0];
      1 + Sent(AfterLinkADR(s, a.last, a.mask, Combined(a.answers)), max, attempts[1..])
  }

  ghost predicate AllRefused(s: AdrSession, attempts: seq<Attempt>) {
    forall i :: 0 <= i < |attempts| ==> attempts[i].block.cid == LINK_ADR && !Accepts(s, Combined(attempts[i].answers))
  }

  /** A device that refuses every link-ADR block is sent at most the configured maximum plus one of
      them, and exactly that many if so many are due. */
  lemma {:induction false} SuppressedAfterMax(s: AdrSession, max: nat, attempts: seq<Attempt>)
    requires AllRefused(s, attempts)
    ensures var room := if Errors(s.errors, LINK_ADR) <= max then max - Errors(s.errors, LINK_ADR) + 1 else 0;
            Sent(s, max, attempts) == if |attempts| <= room then |attempts| else room
    decreases |attempts|
  {
    if attempts != [] {
      var a := attempts[0];
      assert Allowed([a.block], s.errors, max) == if Errors(s.errors, LINK_ADR) <= max then [a.block] else [];
      var next := AfterLinkADR(s, a.last, a.mask, Combined(a.answers));
      hide Combined;
      if Errors(s.errors, LINK_ADR) <= max {
        SuppressedAfterMax(next, max, attempts[1..]);
      } else {
        SuppressedAfterMax(s, max, attempts[1..]);
      }
    }
  }

  /** The three outcomes. Everything acknowledged: all requested values are taken over. Only the mask, from
      a device with ADR disabled: the mask and the repetitions, and of data-rate and power what was
      acknowledged. Otherwise: a refusal is counted, and a refused power narrows the supported range. */
  lemma AfterLinkADRMeans(s: AdrSession, req: LinkADRReq, mask: seq<int>, ack: LinkADRAns)
    ensures var t := AfterLinkADR(s, req, Some(mask), ack);
            var accepted := ack.channelMaskACK && ((ack.dataRateACK && ack.powerACK) || !s.adr);
            && t.adr == s.adr
            && (accepted ==>
                  && t.enabled == mask && t.nbTrans == req.nbRep && LINK_ADR !in t.errors
                  && t.dr == (if ack.dataRateACK then req.dataRate else s.dr)
                  && t.txPowerIndex == (if ack.powerACK then req.txPower else s.txPowerIndex)
                  && t.minSupportedTXPower == s.minSupportedTXPower && t.maxSupportedTXPower == s.maxSupportedTXPower)
            && (!accepted ==>
                  && t.enabled == s.enabled && t.nbTrans == s.nbTrans && t.dr == s.dr
                  && LINK_ADR in t.errors && t.errors[LINK_ADR] == Errors(s.errors, LINK_ADR) + 1
                  && (ack.powerACK || req.txPower > 0 ==> t.txPowerIndex == s.txPowerIndex)
                  && (!ack.powerACK && req.txPower > 0 ==> t.maxSupportedTXPower + 1 == req.txPower)
                  && (!ack.powerACK && req.txPower == 0 ==> t.txPowerIndex == 1 && t.minSupportedTXPower == 1))
            && t.errors - {LINK_ADR} == s.errors - {LINK_ADR}
  {
  }

  class LinkADRHandler {
    var session: AdrSession

    constructor (session: AdrSession)
      ensures this.session == session
    {
      this.session := session;
    }

    method HandleLinkADRAns(answers: seq<LinkADRAns>, pending: Option<seq<LinkADRReq>>, mask: Option<seq<int>>)
      returns (error: Option<LinkADRError>)
      modifies this
      ensures answers == [] ==> error == Some(NoAnswers)
      ensures answers != [] && (pending.None? || pending.value == []) ==> error == Some(NothingPending)
      ensures error in {Some(NoAnswers), Some(NothingPending)} ==> session == old(session)
      ensures answers != [] && pending.Some? && pending.value != [] ==>
                && session == AfterLinkADR(old(session), pending.value[|pending.value| - 1], mask, Combined(answers))
                && error == if Accepts(old(session), Combined(answers)) && mask.None?
                            then Some(InvalidChannelMask) else None
    {
      if |answers| == 0 {
        return Some(NoAnswers);
      }
      if pending.None? || |pending.value| == 0 {
        return Some(NothingPending);
      }
      var channelMask, dataRate, power := true, true, true;
      for i := 0 to |answers|
        invariant LinkADRAns(channelMask, dataRate, power) == Combined(answers[..i])
      {
        assert answers[..i + 1][..i] == answers[..i];
        if !answers[i].channelMaskACK {
          channelMask := false;
        }
        if !answers[i].dataRateACK {
          dataRate := false;
        }
        if !answers[i].powerACK {
          power := false;
        }
      }
      assert answers[..|answers|] == answers;
      var adrReq := pending.value[|pending.value| - 1];
      if channelMask && dataRate && power {
        session := session.(errors := session.errors - {LINK_ADR});
        if mask.None? {
          return Some(InvalidChannelMask);
        }
        session := session.(txPowerIndex := adrReq.txPower, dr := adrReq.dataRate,
                            nbTrans := adrReq.nbRep, enabled := mask.value);
      } else if !session.adr && channelMask {
        session := session.(errors := session.errors - {LINK_ADR});
        if mask.None? {
          return Some(InvalidChannelMask);
        }
        session := session.(enabled := mask.value, nbTrans := adrReq.nbRep);
        if dataRate {
          session := session.(dr := adrReq.dataRate);
        }
        if power {
          session := session.(txPowerIndex := adrReq.txPower);
        }
      } else {
        session := session.(errors := session.errors[LINK_ADR := Errors(session.errors, LINK_ADR) + 1]);
        if !power && adrReq.txPower == 0 {
          session := session.(txPowerIndex := 1, minSupportedTXPower := 1);
        }
        if !power && adrReq.txPower > 0 {
          session := session.(maxSupportedTXPower := adrReq.txPower - 1);
        }
      }
      error := None;
    }
  }
}
