/** The device sessions in Redis and the index from device addresses to devices
    (internal/storage/device_session.go).

    Keys carry expiry times under a virtual clock. Every method is one atomic operation, except
    that the removal of a stale index entry is also given as a step of its own.
 */
module DevAddrIndex {
  import opened Options
  import opened Common

  /** A session and, while a rejoin is pending, the session that would replace it. */
  datatype Session = Session(devEUI: int, devAddr: int, pendingRejoin: Option<Session>)

  datatype SessionKey = SessionKey(session: Session, expiry: int)

  datatype IndexKey = IndexKey(devEUIs: set<int>, expiry: int)

  datatype StoreError = DoesNotExist

  /** The addresses under which a session can be found: its own and that of its pending rejoin. */
  function Addresses(s: Session): set<int> {
    {s.devAddr} + if s.pendingRejoin.Some? then {s.pendingRejoin.value.devAddr} else {}
  }

  /** A session to be found: that of a device itself, or its pending one. */
  datatype Handle = Handle(devEUI: int, pending: bool)

  class SessionStore {
    const ttl: nat
    var now: int
    var sessions: map<int, SessionKey>
    var index: map<int, IndexKey>

    constructor (ttl: nat)
      ensures Valid() && this.ttl == ttl && sessions == map[] && index == map[]
    {
      this.ttl := ttl;
      now, sessions, index := 0, map[], map[];
    }

    predicate Live(devEUI: int)
      reads this`now, this`sessions
    {
      devEUI in sessions && now < sessions[devEUI].expiry
    }

    function IndexMembers(devAddr: int): set<int>
      reads this
    {
      if devAddr in index && now < index[devAddr].expiry then index[devAddr].devEUIs else {}
    }

    /** Every live session is in the index under each of its addresses, for at least as long. */
    ghost predicate Valid()
      reads this
    {
      && (forall e :: e in sessions ==> sessions[e].session.devEUI == e && sessions[e].expiry <= now + ttl)
      && (forall a :: a in index ==> index[a].expiry <= now + ttl)
      && forall e, a :: Live(e) && a in Addresses(sessions[e].session) ==> Indexed(e, a)
    }

    ghost predicate Indexed(e: int, a: int)
      requires e in sessions
      reads this
    {
      a in index && e in index[a].devEUIs && sessions[e].expiry <= index[a].expiry
    }

    /** What a scan over all sessions would find for an address. */
    ghost function Matches(devAddr: int): set<Handle>
      reads this`now, this`sessions
    {
      (set e | e in sessions && Live(e) && sessions[e].session.devAddr == devAddr :: Handle(e, false)) +
      (set e | e in sessions && Live(e) && sessions[e].session.pendingRejoin.Some?
               && sessions[e].session.pendingRejoin.value.devAddr == devAddr :: Handle(e, true))
    }

    /** The session a handle stands for. */
    ghost predicate IsSession(h: Handle, s: Session)
      reads this`sessions
    {
      && h.devEUI in sessions
      && if h.pending then sessions[h.devEUI].session.pendingRejoin == Some(s) else s == sessions[h.devEUI].session
    }

    /** The items are the sessions of exactly the given handles, each once. */
    ghost predicate Lists(items: seq<Session>, handles: seq<Handle>, found: set<Handle>)
      reads this`sessions
    {
      && |items| == |handles|
      && (forall i :: 0 <= i < |items| ==> IsSession(handles[i], items[i]))
      && (forall i, j :: 0 <= i < j < |handles| ==> handles[i] != handles[j])
      && (forall h :: h in found <==> h in handles)
    }

    lemma ListsAppend(items: seq<Session>, handles: seq<Handle>, found: set<Handle>,
                      items': seq<Session>, handles': seq<Handle>, found': set<Handle>)
      requires Lists(items, handles, found) && Lists(items', handles', found') && found !! found'
      ensures Lists(items + items', handles + handles', found + found')
    {
      assert forall i :: 0 <= i < |handles| ==> handles[i] in found;
      assert forall i :: 0 <= i < |handles'| ==> handles'[i] in found';
    }

    /** SADD and PEXPIRE. */
    method AddToIndex(devAddr: int, devEUI: int)
      modifies this`index
      ensures index == old(index)[devAddr := IndexKey(old(IndexMembers(devAddr)) + {devEUI}, now + ttl)]
    {
      index := index[devAddr := IndexKey(IndexMembers(devAddr) + {devEUI}, now + ttl)];
    }

    method SaveDeviceSession(s: Session)
      requires Valid()
      modifies this`sessions, this`index
      ensures Valid()
      ensures sessions == old(sessions)[s.devEUI := SessionKey(s, now + ttl)]
    {
      AddToIndex(s.devAddr, s.devEUI);
      if s.pendingRejoin.Some? {
        AddToIndex(s.pendingRejoin.value.devAddr, s.devEUI);
      }
      sessions := sessions[s.devEUI := SessionKey(s, now + ttl)];
    }

    /** A session that can be read is also found by each of its addresses. */
    method GetDeviceSession(devEUI: int) returns (s: Result<Session, StoreError>)
      requires Valid()
      ensures s.Ok? ==> s.value.devEUI == devEUI && forall a :: a in Addresses(s.value) ==> devEUI in IndexMembers(a)
      ensures s.Ok? ==> Handle(devEUI, false) in Matches(s.value.devAddr) && IsSession(Handle(devEUI, false), s.value)
      ensures s.Err? ==> forall a, pending :: Handle(devEUI, pending) !in Matches(a)
      ensures s == if Live(devEUI) then Ok(sessions[devEUI].session) else Err(DoesNotExist)
    {
      s := if Live(devEUI) then Ok(sessions[devEUI].session) else Err(DoesNotExist);
    }

    method DeleteDeviceSession(devEUI: int) returns (error: Option<StoreError>)
      requires Valid()
      modifies this`sessions
      ensures Valid()
      ensures error == if old(Live(devEUI)) then None else Some(DoesNotExist)
      ensures sessions == if old(Live(devEUI)) then old(sessions) - {devEUI} else old(sessions)
    {
      if !Live(devEUI) {
        return Some(DoesNotExist);
      }
      sessions := sessions - {devEUI};
      error := None;
    }

    /** Time passes; keys expire. */
    method Advance(d: nat)
      requires Valid()
      modifies this`now
      ensures Valid() && now == old(now) + d
    {
      now := now + d;
    }

    /** SREM of one device. It keeps the index complete exactly when the device has no live session
        with that address: a save that comes between the failed GET and this step is undone by it. */
    method RemoveFromIndex(devAddr: int, devEUI: int)
      requires Valid()
      modifies this`index
      ensures Valid() <==> !(Live(devEUI) && devAddr in Addresses(sessions[devEUI].session))
      ensures forall a :: a in index <==> a in old(index)
      ensures forall a :: a in index ==> index[a].expiry == old(index)[a].expiry
      ensures forall a :: a in index ==>
                index[a].devEUIs == old(index)[a].devEUIs - if a == devAddr then {devEUI} else {}
    {
      if devAddr in index {
        var key := index[devAddr];
        index := index[devAddr := key.(devEUIs := key.devEUIs - {devEUI})];
      }
    }

    /** Such a save, between the two steps of a lookup that removes a stale entry: the session is live
        and has the address, but the lookup by that address no longer finds it. */
    method SaveBetweenGetAndRemoval(devAddr: int, s: Session)
      requires Valid() && 0 < ttl && devAddr in Addresses(s)
      requires s.devEUI in IndexMembers(devAddr) && !Live(s.devEUI)
      modifies this`sessions, this`index
      ensures Live(s.devEUI) && sessions[s.devEUI].session == s
      ensures s.devEUI !in IndexMembers(devAddr)
      ensures exists pending :: Handle(s.devEUI, pending) in Matches(devAddr)
    {
      var stale := GetDeviceSession(s.devEUI);
      assert stale.Err?;
      SaveDeviceSession(s);
      RemoveFromIndex(devAddr, s.devEUI);
      assert s.devAddr == devAddr ==> Handle(s.devEUI, false) in Matches(devAddr);
      assert s.devAddr != devAddr ==> Handle(s.devEUI, true) in Matches(devAddr);
    }

    method RemoveStale(devAddr: int, devEUI: int)
      requires Valid() && !Live(devEUI)
      modifies this`index
      ensures Valid()
    {
      RemoveFromIndex(devAddr, devEUI);
    }

    /** What the lookup takes from one member of the index set. */
    method TakeMember(devAddr: int, devEUI: int) returns (items: seq<Session>, ghost handles: seq<Handle>)
      requires Valid()
      modifies this`index
      ensures Valid()
      ensures Lists(items, handles, set h | h in Matches(devAddr) && h.devEUI == devEUI)
    {
      items, handles := [], [];
      var s := GetDeviceSession(devEUI);
      if s.Err? {
        RemoveStale(devAddr, devEUI);
        return;
      }
      if s.value.devAddr == devAddr {
        items, handles := [s.value], [Handle(devEUI, false)];
      }
      if s.value.pendingRejoin.Some? && s.value.pendingRejoin.value.devAddr == devAddr {
        items, handles := items + [s.value.pendingRejoin.value], handles + [Handle(devEUI, true)];
      }
    }

    /** Lookup by address: every session a scan would find, each exactly once. Sessions are read in
        the arbitrary order of the set's members; entries of devices without a session are removed. */
    method GetDeviceSessionsForDevAddr(devAddr: int) returns (items: seq<Session>, ghost handles: seq<Handle>)
      requires Valid()
      modifies this`index
      ensures Valid()
      ensures Lists(items, handles, Matches(devAddr))
    {
      items, handles := [], [];
      var rest := IndexMembers(devAddr);
      ghost var matches := Matches(devAddr);
      assert forall h :: h in matches ==> Indexed(h.devEUI, devAddr) && h.devEUI in rest;
      ghost var found: set<Handle> := {};
      hide SessionStore.Valid, SessionStore.Matches, SessionStore.Lists;
      while rest != {}
        modifies this`index
        invariant Valid() && Matches(devAddr) == matches
        invariant Lists(items, handles, found)
        invariant found == set h | h in matches && h.devEUI !in rest
        decreases rest
      {
        Inhabited(rest);
        var devEUI :| devEUI in rest;
        rest := rest - {devEUI};
        var more;
        ghost var moreHandles;
        more, moreHandles := TakeMember(devAddr, devEUI);
        ghost var moreFound := set h | h in matches && h.devEUI == devEUI;
        ListsAppend(items, handles, found, more, moreHandles, moreFound);
        items, handles, found := items + more, handles + moreHandles, found + moreFound;
      }
      assert found == matches;
    }
  }
}
