/** Bytes of MAC-command sequences (internal/storage/mac_command.go).

    A payload is kept as its bytes. The library's table of payload sizes is an arbitrary function;
    a command it does not know, such as a proprietary one, counts as having no payload.
 */
module MacCommand {
  import opened Options
  import opened Common

  datatype Command = Command(cid: Byte, payload: seq<Byte>)

  /** Commands that are sent and answered together. External ones were enqueued by a controller. */
  datatype Block = Block(cid: Byte, external: bool, commands: seq<Command>)

  type SizeTable = Byte -> Option<nat>

  function PayloadLength(sizes: SizeTable, cid: Byte): nat {
    if sizes(cid).Some? then sizes(cid).value else 0
  }

  function MarshalOne(c: Command): seq<Byte> {
    [c.cid] + c.payload
  }

  function Marshal(commands: seq<Command>): seq<Byte> {
    if commands == [] then [] else MarshalOne(commands[0]) + Marshal(commands[1..])
  }

  /** The commands that data consists of, None when the last one is cut short. */
  function Parse(sizes: SizeTable, data: seq<Byte>): Option<seq<Command>> {
    if data == [] then Some([])
    else
      var n := PayloadLength(sizes, data[0]);
      if |data| < n + 1 then None
      else
        var rest := Parse(sizes, data[n + 1..]);
        if rest.None? then None else Some([Command(data[0], data[1..n + 1])] + rest.value)
  }

  ghost predicate SizesMatch(sizes: SizeTable, commands: seq<Command>) {
    forall i :: 0 <= i < |commands| ==> |commands[i].payload| == PayloadLength(sizes, commands[i].cid)
  }

  method MarshalBinary(commands: seq<Command>) returns (out: seq<Byte>)
    ensures out == Marshal(commands)
  {
    out := [];
    for i := 0 to |commands|
      invariant out + Marshal(commands[i..]) == Marshal(commands)
    {
      assert commands[i..][1..] == commands[i + 1..];
      out := out + MarshalOne(commands[i]);
    }
  }

  method Size(block: Block) returns (count: nat)
    ensures count == |Marshal(block.commands)|
  {
    count := 0;
    for i := 0 to |block.commands|
      invariant count + |Marshal(block.commands[i..])| == |Marshal(block.commands)|
    {
      assert block.commands[i..][1..] == block.commands[i + 1..];
      var b := MarshalOne(block.commands[i]);
      count := count + |b|;
    }
  }

  lemma ParseStep(sizes: SizeTable, data: seq<Byte>, i: nat)
    requires i < |data|
    ensures var n := PayloadLength(sizes, data[i]);
            if |data| - i < n + 1 then Parse(sizes, data[i..]).None?
            else var rest := Parse(sizes, data[i + n + 1..]);
                 Parse(sizes, data[i..]) ==
                 if rest.None? then None else Some([Command(data[i], data[i + 1..i + n + 1])] + rest.value)
  {
    var n := PayloadLength(sizes, data[i]);
    if n + 1 <= |data| - i {
      assert data[i..][n + 1..] == data[i + n + 1..];
      assert data[i..][1..n + 1] == data[i + 1..i + n + 1];
    }
  }

  /** out holds m and the commands parsed so far; rest is what the remaining bytes parse to. */
  ghost predicate Continues(m: seq<Command>, whole: Option<seq<Command>>, out: seq<Command>,
                            rest: Option<seq<Command>>) {
    m <= out && (whole.Some? <==> rest.Some?) && (whole.Some? ==> m + whole.value == out + rest.value)
  }

  lemma ContinuesStep(m: seq<Command>, whole: Option<seq<Command>>, out: seq<Command>, c: Command,
                      rest: Option<seq<Command>>)
    requires Continues(m, whole, out, if rest.None? then None else Some([c] + rest.value))
    ensures Continues(m, whole, out + [c], rest)
  {
    if rest.Some? {
      assert out + ([c] + rest.value) == (out + [c]) + rest.value;
    }
  }

  lemma ContinuesEnd(m: seq<Command>, whole: Option<seq<Command>>, out: seq<Command>, rest: Option<seq<Command>>)
    requires Continues(m, whole, out, rest)
    ensures m <= out && (whole.Some? <==> rest.Some?) && (rest == Some([]) ==> out == m + whole.value)
  {
  }

  /** Appends the commands to m; after an error m holds those in front of it. */
  method UnmarshalBinary(sizes: SizeTable, m: seq<Command>, data: seq<Byte>) returns (out: seq<Command>, ok: bool)
    ensures ok <==> Parse(sizes, data).Some?
    ensures ok ==> out == m + Parse(sizes, data).value
    ensures m <= out
  {
    out := m;
    ok := true;
    var i := 0;
    assert data[0..] == data && data[|data|..] == [];
    ghost var whole := Parse(sizes, data);
    assert Parse(sizes, []) == Some([]);
    assert Continues(m, whole, m, whole);
    hide Parse, PayloadLength, Continues;
    ghost var left := whole;
    while i < |data|
      invariant 0 <= i <= |data|
      invariant left == Parse(sizes, data[i..]) && Continues(m, whole, out, left)
    {
      ParseStep(sizes, data, i);
      var pLen := PayloadLength(sizes, data[i]);
      if |data| - i < pLen + 1 {
        ContinuesEnd(m, whole, out, left);
        return out, false;
      }
      var mc := Command(data[i], data[i + 1..i + 1 + pLen]);
      left := Parse(sizes, data[i + pLen + 1..]);
      ContinuesStep(m, whole, out, mc, left);
      out := out + [mc];
      i := i + pLen + 1;
    }
    assert data[i..] == [];
    ContinuesEnd(m, whole, out, left);
  }

  /** Unmarshalling undoes marshalling for commands whose payloads have the tabled sizes. */
  lemma {:induction false} ParseOfMarshal(sizes: SizeTable, commands: seq<Command>)
    requires SizesMatch(sizes, commands)
    ensures Parse(sizes, Marshal(commands)) == Some(commands)
  {
    if commands != [] {
      var c, data := commands[0], Marshal(commands);
      ParseOfMarshal(sizes, commands[1..]);
      var n := |c.payload|;
      assert data == ([c.cid] + c.payload) + Marshal(commands[1..]);
      assert data[0] == c.cid && [c] + commands[1..] == commands;
      assert data[1..n + 1] == c.payload && data[n + 1..] == Marshal(commands[1..]);
    }
  }

  /** The first command of some bytes: its identifier comes first, then as many bytes as the table says,
      none for a command it does not have. It is cut short exactly when these are not all there. */
  lemma FirstCommand(sizes: SizeTable, data: seq<Byte>)
    requires data != []
    ensures sizes(data[0]).None? ==>
              Parse(sizes, data) == Prefixed(Command(data[0], []), Parse(sizes, data[1..]))
    ensures sizes(data[0]).Some? ==>
              var n := sizes(data[0]).value;
              if |data| < 1 + n then Parse(sizes, data) == None
              else Parse(sizes, data) == Prefixed(Command(data[0], data[1..n + 1]), Parse(sizes, data[n + 1..]))
  {
    assert data[1..1] == [];
  }

  function Prefixed(c: Command, rest: Option<seq<Command>>): Option<seq<Command>> {
    if rest.None? then None else Some([c] + rest.value)
  }

  /** A sequence has the tabled sizes when each payload does. */
  lemma SizesMatchMeans(sizes: SizeTable, commands: seq<Command>)
    ensures SizesMatch(sizes, commands) <==>
            forall i :: 0 <= i < |commands| ==>
                          match sizes(commands[i].cid)
                          case Some(n) => |commands[i].payload| == n
                          case None => commands[i].payload == []
  {
  }

  lemma MarshalCons(first: Command, rest: seq<Command>)
    ensures Marshal([first] + rest) == MarshalOne(first) + Marshal(rest)
  {
    assert ([first] + rest)[1..] == rest;
  }

  lemma SplitFirst(data: seq<Byte>, n: nat)
    requires n + 1 <= |data|
    ensures MarshalOne(Command(data[0], data[1..n + 1])) + data[n + 1..] == data
  {
  }

  lemma FirstMatches(sizes: SizeTable, first: Command, rest: seq<Command>)
    requires |first.payload| == PayloadLength(sizes, first.cid) && SizesMatch(sizes, rest)
    ensures SizesMatch(sizes, [first] + rest)
  {
  }

  /** Marshalling undoes unmarshalling: no byte is skipped or made up. */
  lemma {:induction false} MarshalOfParse(sizes: SizeTable, data: seq<Byte>)
    requires Parse(sizes, data).Some?
    ensures Marshal(Parse(sizes, data).value) == data && SizesMatch(sizes, Parse(sizes, data).value)
  {
    if data != [] {
      var n := PayloadLength(sizes, data[0]);
      var first, tail := Command(data[0], data[1..n + 1]), data[n + 1..];
      var rest := Parse(sizes, tail).value;
      assert Parse(sizes, data).value == [first] + rest;
      MarshalOfParse(sizes, tail);
      hide Parse, Marshal, MarshalOne, PayloadLength;
      MarshalCons(first, rest);
      SplitFirst(data, n);
      hide SizesMatch;
      FirstMatches(sizes, first, rest);
    }
  }

  /** So a byte string is accepted exactly when it is the encoding of a sequence with tabled sizes,
      and there is only one such sequence. */
  lemma ParsesIff(sizes: SizeTable, data: seq<Byte>)
    ensures Parse(sizes, data).Some? <==> exists cs :: SizesMatch(sizes, cs) && Marshal(cs) == data
    ensures forall cs, cs' :: SizesMatch(sizes, cs) && SizesMatch(sizes, cs') && Marshal(cs) == Marshal(cs') ==>
              cs == cs'
  {
    if Parse(sizes, data).Some? {
      MarshalOfParse(sizes, data);
    }
    forall cs | SizesMatch(sizes, cs) ensures Parse(sizes, Marshal(cs)) == Some(cs) {
      ParseOfMarshal(sizes, cs);
    }
  }
}
