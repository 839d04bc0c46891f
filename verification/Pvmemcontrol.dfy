/** The paravirtual memory-control device: its register protocol and the connections it hands to the guest. */
module Pvmemcontrol {
  import opened Base
  import opened Bits

  const FIRST: int := 0x8000_0000
  const SPAN: int := 0x8000_0000
  const LIMIT: int := 0x1_0000_0000
  const COMMAND_OFFSET: nat := 8

  datatype Command = Reset | Register | Ready | Disconnect | Ack | Error

  function Code(c: Command): int {
    match c
    case Reset => 0x060f_e6d2
    case Register => 0x0e35_9539
    case Ready => 0x0ca8_d227
    case Disconnect => 0x030f_5da0
    case Ack => 0x03cf_5196
    case Error => 0x01fb_a249
  }

  function ParseCommand(w: int): (r: Option<Command>)
    ensures r.Some? <==> exists c :: Code(c) == w
    ensures r.Some? ==> Code(r.value) == w
  {
    if w == Code(Reset) then Some(Reset)
    else if w == Code(Register) then Some(Register)
    else if w == Code(Ready) then Some(Ready)
    else if w == Code(Disconnect) then Some(Disconnect)
    else if w == Code(Ack) then Some(Ack)
    else if w == Code(Error) then Some(Error)
    else None
  }

  predicate IsId(id: int) {
    FIRST <= id < LIMIT
  }

  /** The connection after `id`; the last one is followed by the first. */
  function NextId(id: int): int {
    if id == LIMIT - 1 then FIRST else id + 1
  }

  /** The connection `k` steps after `start`. */
  function IdAt(start: int, k: int): int {
    FIRST + (start - FIRST + k) % SPAN
  }

  lemma NextIsStep(start: int, k: int)
    requires IsId(start) && 0 <= k
    ensures IdAt(start, 0) == start && IsId(IdAt(start, k)) && NextId(IdAt(start, k)) == IdAt(start, k + 1)
  {
  }

  /** A full turn, and no less, comes back to the start. */
  lemma FullTurn(start: int, k: int)
    requires IsId(start) && 0 < k <= SPAN
    ensures IdAt(start, k) == start <==> k == SPAN
  {
  }

  lemma EveryIdIsSomeStep(start: int, id: int)
    requires IsId(start) && IsId(id)
    ensures 0 <= (id - start) % SPAN < SPAN && IdAt(start, (id - start) % SPAN) == id
  {
  }

  /** Bit 31 of a 32-bit word tells connections from commands. */
  function TryConnection(w: int): (r: Option<int>)
    requires 0 <= w < LIMIT
    ensures r.Some? <==> IsId(w)
    ensures r.Some? ==> r.value == w
  {
    TopBit(w);
    if And(w, 0x8000_0000) != 0 then Some(w) else None
  }

  lemma Pow2At31()
    ensures Pow2(31) == 0x8000_0000 && Pow2(32) == 0x1_0000_0000
  {
    assert Pow2(8) == 0x100;
    Pow2Up8(8);
    Pow2Up8(16);
    Pow2Up8(24);
    assert Pow2(32) == 2 * Pow2(31);
  }

  lemma {:induction false} HighBit(x: nat, k: nat)
    requires x < Pow2(k + 1)
    ensures Bit(x, k) <==> x >= Pow2(k)
  {
    if k > 0 {
      HighBit(x / 2, k - 1);
    }
  }

  lemma TopBit(w: nat)
    requires w < LIMIT
    ensures And(w, 0x8000_0000) != 0 <==> IsId(w)
  {
    Pow2At31();
    AndPow2(w, 31);
    HighBit(w, 31);
  }

  /** No connection can be mistaken for a command. */
  lemma CommandsAreNotIds(c: Command)
    ensures 0 <= Code(c) < LIMIT && !IsId(Code(c)) && ParseCommand(Code(c)) == Some(c)
  {
  }

  // ---------------------------------------------------------------- the protocol as a state machine

  datatype State = PercpuInit(ports: map<int, int>, next: int) | Serving(ports: map<int, int>) | Broken

  /** The device and the connections it has issued since the last Reset. */
  datatype Dev = Dev(state: State, issued: seq<int>)

  /** A command, with the address the payload held when it arrived. */
  datatype Event = Event(cmd: Command, addr: int)

  /** `k` steps from `start` is the nearest connection not yet taken. */
  predicate FirstFree(ports: map<int, int>, start: int, k: int) {
    0 <= k < SPAN && IdAt(start, k) !in ports && forall j :: 0 <= j < k ==> IdAt(start, j) in ports
  }

  ghost predicate AllTaken(ports: map<int, int>) {
    forall id :: IsId(id) ==> id in ports
  }

  ghost predicate Registers(valid: set<int>, s: Dev, addr: int, t: Dev)
    requires s.state.PercpuInit?
  {
    exists k :: FirstFree(s.state.ports, s.state.next, k)
             && var id := IdAt(s.state.next, k);
                t == Dev(PercpuInit(s.state.ports[id := addr], NextId(id)), s.issued + [id])
  }

  ghost predicate Step(valid: set<int>, s: Dev, e: Event, t: Dev) {
    match e.cmd
    case Reset => t == Dev(PercpuInit(map[], FIRST), [])
    case Register =>
      if s.state.PercpuInit? && e.addr in valid && !AllTaken(s.state.ports) then Registers(valid, s, e.addr, t)
      else t == Dev(Broken, s.issued)
    case Ready =>
      t == Dev(if s.state.PercpuInit? then Serving(s.state.ports) else Broken, s.issued)
    case _ => t == Dev(Broken, s.issued)
  }

  /** The address a connection stands for, if the device answers it. */
  function Resolve(state: State, id: int): Option<int> {
    if state.Serving? && id in state.ports then Some(state.ports[id]) else None
  }

  predicate Distinct(ids: seq<int>) {
    forall i, j :: 0 <= i < j < |ids| ==> ids[i] != ids[j]
  }

  /** The ports are the connections issued since the last Reset, each with a checked address. */
  ghost predicate PortsOk(valid: set<int>, ports: map<int, int>, issued: seq<int>) {
    && (forall id :: id in ports <==> id in issued)
    && (forall id :: id in ports ==> ports[id] in valid)
  }

  ghost predicate Inv(valid: set<int>, s: Dev) {
    && Distinct(s.issued) && (forall i :: 0 <= i < |s.issued| ==> IsId(s.issued[i]))
    && (s.state.PercpuInit? ==> IsId(s.state.next) && PortsOk(valid, s.state.ports, s.issued))
    && (s.state.Serving? ==> PortsOk(valid, s.state.ports, s.issued))
  }

  lemma StepKeepsInv(valid: set<int>, s: Dev, e: Event, t: Dev)
    requires Inv(valid, s) && Step(valid, s, e, t)
    ensures Inv(valid, t)
  {
    if e.cmd.Register? && s.state.PercpuInit? && e.addr in valid && !AllTaken(s.state.ports) {
      var k :| FirstFree(s.state.ports, s.state.next, k)
               && var id := IdAt(s.state.next, k);
                  t == Dev(PercpuInit(s.state.ports[id := e.addr], NextId(id)), s.issued + [id]);
      NextIsStep(s.state.next, k);
    }
  }

  ghost predicate Run(valid: set<int>, states: seq<Dev>, events: seq<Event>) {
    && |states| == |events| + 1 && states[0] == Dev(Broken, [])
    && forall i :: 0 <= i < |events| ==> Step(valid, states[i], events[i], states[i + 1])
  }

  /** In every state of every run the issued connections are distinct, have bit 31 set and own their ports. */
  lemma {:induction false} EveryStateIsSound(valid: set<int>, states: seq<Dev>, events: seq<Event>, n: nat)
    requires Run(valid, states, events) && n < |states|
    ensures Inv(valid, states[n])
  {
    if n > 0 {
      EveryStateIsSound(valid, states, events, n - 1);
      StepKeepsInv(valid, states[n - 1], events[n - 1], states[n]);
    }
  }

  /** A connection is answered only after Ready, only if it was issued, and only with a checked address. */
  lemma AnswersAreRegistered(valid: set<int>, states: seq<Dev>, events: seq<Event>, n: nat, id: int)
    requires Run(valid, states, events) && n < |states| && Resolve(states[n].state, id).Some?
    ensures states[n].state.Serving? && id in states[n].issued && IsId(id)
    ensures Resolve(states[n].state, id).value in valid
  {
    EveryStateIsSound(valid, states, events, n);
  }

  /** Event `k` registered address `a` and issued connection `id` for it, and no Reset came between it and state `n`. */
  ghost predicate Issued(states: seq<Dev>, events: seq<Event>, k: nat, id: int, a: int, n: nat)
    requires |states| == |events| + 1 && n <= |events|
  {
    && k < n && events[k] == Event(Register, a) && states[k + 1].issued == states[k].issued + [id]
    && forall j :: k < j < n ==> !events[j].cmd.Reset?
  }

  predicate HasPorts(state: State) {
    !state.Broken?
  }

  lemma {:induction false} PortWasIssued(valid: set<int>, states: seq<Dev>, events: seq<Event>, n: nat, id: int)
    requires Run(valid, states, events) && n < |states| && HasPorts(states[n].state) && id in states[n].state.ports
    ensures exists k: nat :: Issued(states, events, k, id, states[n].state.ports[id], n)
    decreases n
  {
    if n > 0 {
      var m := n - 1;
      var e := events[m];
      assert Step(valid, states[m], e, states[n]);
      if e.cmd.Register? && states[n].issued == states[m].issued + [id] && states[n].state.ports[id] == e.addr {
        assert Issued(states, events, m, id, e.addr, n);
      } else {
        PortWasIssued(valid, states, events, m, id);
        var k: nat :| Issued(states, events, k, id, states[m].state.ports[id], m);
        assert Issued(states, events, k, id, states[n].state.ports[id], n);
      }
    }
  }

  lemma {:induction false} IssuedIsPort(valid: set<int>, states: seq<Dev>, events: seq<Event>, k: nat, id: int, a: int,
                                        n: nat)
    requires Run(valid, states, events) && n < |states| && Issued(states, events, k, id, a, n)
    requires HasPorts(states[n].state)
    ensures id in states[n].state.ports && states[n].state.ports[id] == a
    decreases n
  {
    var m := n - 1;
    assert Step(valid, states[m], events[m], states[n]);
    if k == m {
      assert (states[m].issued + [id])[|states[m].issued|] == id;
    } else {
      IssuedIsPort(valid, states, events, k, id, a, m);
    }
  }

  /**
    In any run a connection is answered with an address if and only if the device is ready and a
    registration of that very address issued the connection since the last Reset.
   */
  lemma AnsweredIffIssued(valid: set<int>, states: seq<Dev>, events: seq<Event>, n: nat, id: int, a: int)
    requires Run(valid, states, events) && n < |states|
    ensures Resolve(states[n].state, id) == Some(a) <==>
              states[n].state.Serving? && exists k: nat :: Issued(states, events, k, id, a, n)
  {
    hide Step, Issued;
    if states[n].state.Serving? {
      if id in states[n].state.ports {
        PortWasIssued(valid, states, events, n, id);
      }
      if k: nat :| Issued(states, events, k, id, a, n) {
        IssuedIsPort(valid, states, events, k, id, a, n);
      }
    }
  }

  /** Once broken, the device stays broken and answers nothing until a Reset. */
  lemma {:induction false} BrokenUntilReset(valid: set<int>, states: seq<Dev>, events: seq<Event>, i: nat, j: nat,
                                            id: int)
    requires Run(valid, states, events) && i <= j < |states| && states[i].state.Broken?
    requires forall k :: i <= k < j ==> !events[k].cmd.Reset?
    ensures states[j].state.Broken? && Resolve(states[j].state, id) == None
    decreases j
  {
    if i < j {
      BrokenUntilReset(valid, states, events, i, j - 1, id);
      assert Step(valid, states[j - 1], events[j - 1], states[j]);
    }
  }

  predicate Between(lo: int, id: int, hi: int) {
    lo <= id < hi
  }

  ghost function Ids(lo: int, hi: int): set<int> {
    set id | lo <= id < hi && Between(lo, id, hi)
  }

  lemma {:induction false} IdCount(lo: int, hi: int)
    requires lo <= hi
    ensures |Ids(lo, hi)| == hi - lo
    decreases hi - lo
  {
    if lo == hi {
      assert Ids(lo, hi) == {};
    } else {
      IdCount(lo, hi - 1);
      assert Ids(lo, hi) == Ids(lo, hi - 1) + {hi - 1};
    }
  }

  ghost function Elements(ids: seq<int>): set<int> {
    set id | id in ids
  }

  lemma {:induction false} DistinctCount(ids: seq<int>)
    requires Distinct(ids)
    ensures |Elements(ids)| == |ids|
  {
    if ids != [] {
      var n := |ids| - 1;
      DistinctCount(ids[..n]);
      assert Elements(ids) == Elements(ids[..n]) + {ids[n]};
      assert ids[n] !in Elements(ids[..n]);
    }
  }

  lemma SubsetCount(a: set<int>, b: set<int>)
    requires a <= b
    ensures |a| <= |b| && (|a| == |b| <==> a == b)
  {
    assert b == a + (b - a);
    if |a| == |b| {
      assert b - a == {};
    }
  }

  /** All connections are taken when as many have been issued as there are. */
  lemma TakenWhenAllIssued(valid: set<int>, s: Dev)
    requires Inv(valid, s) && s.state.PercpuInit?
    ensures |s.issued| <= SPAN && (AllTaken(s.state.ports) <==> |s.issued| == SPAN)
  {
    var all, issued := Ids(FIRST, LIMIT), Elements(s.issued);
    IdCount(FIRST, LIMIT);
    DistinctCount(s.issued);
    SubsetCount(issued, all);
    if issued == all {
      forall id | IsId(id)
        ensures id in s.state.ports
      {
        assert Between(FIRST, id, LIMIT);
        assert id in issued;
      }
    } else if AllTaken(s.state.ports) {
      forall id | id in all
        ensures id in issued
      {
        assert IsId(id);
      }
    }
  }

  /**
    In any run, registering a buffer breaks an initialising device exactly when the address is bad or
    all 2^31 connections have been issued since the last Reset.
   */
  lemma RegisterFailsIff(valid: set<int>, states: seq<Dev>, events: seq<Event>, n: nat)
    requires Run(valid, states, events) && n < |events| && states[n].state.PercpuInit? && events[n].cmd.Register?
    ensures |states[n].issued| <= SPAN
    ensures states[n + 1].state.Broken? <==> events[n].addr !in valid || |states[n].issued| == SPAN
  {
    hide Inv;
    EveryStateIsSound(valid, states, events, n);
    TakenWhenAllIssued(valid, states[n]);
    assert Step(valid, states[n], events[n], states[n + 1]);
  }

  // ---------------------------------------------------------------- the device

  function Le32(b0: int, b1: int, b2: int, b3: int): int {
    b0 + 0x100 * b1 + 0x1_0000 * b2 + 0x100_0000 * b3
  }

  function Le64(p: seq<Byte>): int
    requires |p| == 8
  {
    Le32(p[0], p[1], p[2], p[3]) + LIMIT * Le32(p[4], p[5], p[6], p[7])
  }

  /** The number that little-endian digits stand for. */
  function FromDigits(p: seq<Byte>): int {
    if p == [] then 0 else p[0] as int + 256 * FromDigits(p[1..])
  }

  lemma FourDigits(p: seq<Byte>)
    requires |p| >= 4
    ensures FromDigits(p) == Le32(p[0], p[1], p[2], p[3]) + LIMIT * FromDigits(p[4..])
  {
    var a, b, c := p[1..], p[2..], p[3..];
    assert a[1..] == b && b[1..] == c && c[1..] == p[4..];
    assert FromDigits(a) == p[1] as int + 256 * FromDigits(b);
    assert FromDigits(b) == p[2] as int + 256 * FromDigits(c);
    assert FromDigits(c) == p[3] as int + 256 * FromDigits(p[4..]);
  }

  /** The address in the payload is its eight bytes, the lowest first. */
  lemma PayloadIsLittleEndian(p: seq<Byte>)
    requires |p| == 8
    ensures Le64(p) == FromDigits(p)
  {
    FourDigits(p);
    FourDigits(p[4..]);
    assert p[4..][4..] == [];
  }

  /** A payload whose first word is `id` and whose second is zero. */
  function IdPayload(id: int): (p: seq<Byte>)
    requires 0 <= id < LIMIT
    ensures |p| == 8 && Le32(p[0], p[1], p[2], p[3]) == id
  {
    var q := id / 0x100;
    var r := q / 0x100;
    [id % 0x100, q % 0x100, r % 0x100, r / 0x100, 0, 0, 0, 0]
  }

  /** The payload tells the guest the connection issued last. */
  predicate Answers(payload: seq<Byte>, issued: seq<int>) {
    && |payload| == 8 && |issued| > 0
    && Le32(payload[0], payload[1], payload[2], payload[3]) == issued[|issued| - 1]
  }

  class Device {
    const valid: set<int>
    var payload: seq<Byte>
    var response: Command
    var state: State
    ghost var issued: seq<int>

    ghost predicate Valid()
      reads this
    {
      |payload| == 8 && Inv(valid, Dev(state, issued))
    }

    ghost function Transport(): (seq<Byte>, Command, Dev)
      reads this
    {
      (payload, response, Dev(state, issued))
    }

    /** A new device is broken until the guest resets it. */
    constructor (valid: set<int>)
      ensures Valid() && this.valid == valid && state == Broken && issued == []
    {
      this.valid, payload, response, state, issued := valid, seq(8, i => 0), Error, Broken, [];
    }

    /** Walks the connections from `start` on, around the end of their range, to the first one not taken. */
    method FindFree(ports: map<int, int>, start: int) returns (r: Option<int>)
      requires IsId(start)
      ensures r.None? <==> AllTaken(ports)
      ensures r.Some? ==> exists k :: FirstFree(ports, start, k) && r.value == IdAt(start, k)
    {
      var conn := start;
      ghost var k := 0;
      NextIsStep(start, 0);
      while conn in ports
        invariant 0 <= k < SPAN && conn == IdAt(start, k)
        invariant forall j :: 0 <= j < k ==> IdAt(start, j) in ports
        decreases SPAN - k
      {
        NextIsStep(start, k);
        FullTurn(start, k + 1);
        conn := NextId(conn);
        if conn == start {
          forall id | IsId(id)
            ensures id in ports
          {
            EveryIdIsSomeStep(start, id);
          }
          return None;
        }
        k := k + 1;
      }
      NextIsStep(start, k);
      assert FirstFree(ports, start, k);
      r := Some(conn);
    }

    method Respond(cmd: Command, next: State)
      modifies this`payload, this`response, this`state
      ensures state == next && response == cmd && |payload| == 8
    {
      var bytes := new Byte[8];
      payload, response, state := bytes[..], cmd, next;
    }

    /** Takes the next connection for the buffer whose address the guest left in the payload. */
    method RegisterPercpuBuf(addr: int)
      requires Valid() && state.PercpuInit?
      modifies this
      ensures Valid() && Step(valid, old(Dev(state, issued)), Event(Register, addr), Dev(state, issued))
      ensures state.PercpuInit? ==>
                response == Ack && Answers(payload, issued)
      ensures state.Broken? ==> response == Error
      ensures state.Broken? <==> addr !in valid || |old(issued)| == SPAN
    {
      ghost var s := Dev(state, issued);
      TakenWhenAllIssued(valid, s);
      if addr !in valid {
        Respond(Error, Broken);
        return;
      }
      var conn := FindFree(state.ports, state.next);
      if conn.None? {
        Respond(Error, Broken);
        return;
      }
      ghost var k :| FirstFree(state.ports, state.next, k) && conn.value == IdAt(state.next, k);
      NextIsStep(state.next, k);
      state := PercpuInit(state.ports[conn.value := addr], NextId(conn.value));
      issued := issued + [conn.value];
      payload, response := IdPayload(conn.value), Ack;
      assert Registers(valid, s, addr, Dev(state, issued));
      StepKeepsInv(valid, s, Event(Register, addr), Dev(state, issued));
    }

    method RunCommand(cmd: Command)
      requires Valid()
      modifies this
      ensures Valid()
      ensures Step(valid, old(Dev(state, issued)), Event(cmd, old(Le64(payload))), Dev(state, issued))
      ensures response == if state.Broken? then Error else Ack
      ensures cmd == Register && !state.Broken? ==> Answers(payload, issued)
    {
      ghost var s, addr := Dev(state, issued), Le64(payload);
      match cmd {
        case Reset =>
          Respond(Ack, PercpuInit(map[], FIRST));
          issued := [];
        case Register =>
          if state.PercpuInit? {
            RegisterPercpuBuf(Le64(payload));
          } else {
            Respond(Error, Broken);
          }
        case Ready =>
          if state.PercpuInit? {
            Respond(Ack, Serving(state.ports));
          } else {
            Respond(Error, Broken);
          }
        case _ =>
          Respond(Error, Broken);
      }
      StepKeepsInv(valid, s, Event(cmd, addr), Dev(state, issued));
    }

    /** A guest write: payload bytes, a command, or a connection to serve; returns the buffer to serve. */
    method HandleGuestWrite(offset: nat, data: seq<Byte>) returns (serve: Option<int>)
      requires Valid()
      modifies this
      ensures Valid()
      ensures offset != COMMAND_OFFSET ==>
                && serve == None && state == old(state) && issued == old(issued) && response == old(response)
                && forall i :: 0 <= i < 8 ==>
                     payload[i] ==
                       if (|data| == 4 || |data| == 8) && offset <= i < offset + |data| then data[i - offset]
                       else old(payload)[i]
      ensures offset == COMMAND_OFFSET && |data| == 4 ==>
                var w := Le32(data[0], data[1], data[2], data[3]);
                && (ParseCommand(w).Some? ==>
                      && serve == None
                      && Step(valid, old(Dev(state, issued)), Event(ParseCommand(w).value, old(Le64(payload))),
                              Dev(state, issued))
                      && response == (if state.Broken? then Error else Ack)
                      && (ParseCommand(w) == Some(Register) && !state.Broken? ==> Answers(payload, issued)))
                && (ParseCommand(w).None? ==> serve == Resolve(state, w) && Transport() == old(Transport()))
      ensures offset == COMMAND_OFFSET && |data| != 4 ==> serve == None && Transport() == old(Transport())
      ensures serve.Some? ==> serve.value in valid
    {
      serve := None;
      if offset != COMMAND_OFFSET {
        if |data| != 4 && |data| != 8 {
          return;
        }
        var was := payload;
        payload := seq(8, i requires 0 <= i < 8 => if offset <= i < offset + |data| then data[i - offset] else was[i]);
        return;
      }
      if |data| != 4 {
        return;
      }
      var w := Le32(data[0], data[1], data[2], data[3]);
      var command := ParseCommand(w);
      if command.Some? {
        RunCommand(command.value);
        return;
      }
      var conn := TryConnection(w);
      if conn.Some? {
        serve := Resolve(state, conn.value);
      }
    }
  }
}
