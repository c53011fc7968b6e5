/**
 The system-call mailbox: `send_syscall` of the target (spike-software/lib/ExecLib.c) against `process_htio` of the
 host (sim/htif.cc, with sim/syscall.cc and sim/device.h). The target is a 32-bit core, so its 64-bit stores are two
 32-bit stores, in either order, and the host may run between them; one call of `process_htio` is one step.
 */
module Mailboxes {
  import opened Arithmetics
  import opened MicroOps
  import Int32s

  type Command = c: seq<nat> | |c| == 8 witness [0, 0, 0, 0, 0, 0, 0, 0]

  /** Where the target is in a system call; the flags tell which half of a 64-bit store is done. */
  datatype Where =
    | Idle
    | Sending(low: bool, high: bool)
    | Waiting
    | Clearing(low: bool, high: bool)
    | Exiting(code: nat)

  /** Target memory that both sides see, the host's queue of responses, and how far the target is. */
  datatype Mail = Mail(tohostLow: Word, tohostHigh: Word, fromhostLow: Word, fromhostHigh: Word, cmd: Command,
                       queue: seq<nat>, exitcode: int, stopped: bool, at: Where)

  /**
   The steps of the two sides. `Fill` is any store of the target to `tohost_cmd` between two calls; a program that exits
   repeats the store of its code forever.
   */
  datatype Step =
    | Fill(k: nat, v: nat) | SendLow | SendHigh | Poll | ClearLow | ClearHigh | ExitLow(code: nat) | ExitHigh(code: nat)
    | Host

  function Wide(low: Word, high: Word): nat {
    low + TWO_32 * high
  }

  function Payload(tohost: nat): nat {
    tohost % 0x1_0000_0000_0000
  }

  /** What a program stores to exit. */
  function ExitWord(code: nat): nat {
    (2 * code + 1) % (TWO_32 * TWO_32)
  }

  /** What the host reports as exit code: an arithmetic shift of a 32-bit number. */
  function ExitCode(m: Mail): int {
    m.exitcode / 2
  }

  /** The response word: the device and command of the request over the response value. */
  function Response(tohost: nat, resp: nat): nat {
    tohost / 0x1_0000_0000_0000 * 0x1_0000_0000_0000 + Payload(resp)
  }

  /** First half of a host step: take a request, run it, and queue the response. An odd payload ends the program. */
  function Take(m: Mail, table: Command -> nat): Mail {
    var tohost := Wide(m.tohostLow, m.tohostHigh);
    if tohost == 0 then m
    else if Payload(tohost) % 2 == 1 then
      m.(tohostLow := 0, tohostHigh := 0, exitcode := Int32s.Wrap32(Payload(tohost)), stopped := true)
    else m.(tohostLow := 0, tohostHigh := 0, cmd := m.cmd[0 := table(m.cmd)], queue := m.queue + [Response(tohost, 1)])
  }

  /** Second half: a queued response goes out if the previous one has been read. */
  function Reply(m: Mail): Mail {
    if m.queue != [] && Wide(m.fromhostLow, m.fromhostHigh) == 0 then
      m.(fromhostLow := m.queue[0] % TWO_32, fromhostHigh := m.queue[0] / TWO_32 % TWO_32, queue := m.queue[1..])
    else m
  }

  /** The steps that the target may take where it is. */
  predicate Allowed(m: Mail, s: Step) {
    match s
    case Fill(k, v) => m.at.Idle? && k < 8
    case SendLow => m.at.Idle? || (m.at.Sending? && !m.at.low)
    case SendHigh => m.at.Idle? || (m.at.Sending? && !m.at.high)
    case Poll => m.at.Waiting?
    case ClearLow => m.at.Clearing? && !m.at.low
    case ClearHigh => m.at.Clearing? && !m.at.high
    case ExitLow(code) => m.at.Idle? || m.at == Exiting(code)
    case ExitHigh(code) => m.at.Idle? || m.at == Exiting(code)
    case Host => true
  }

  function AfterSend(low: bool, high: bool): Where {
    if low && high then Waiting else Sending(low, high)
  }

  function AfterClear(low: bool, high: bool): Where {
    if low && high then Idle else Clearing(low, high)
  }

  function Next(m: Mail, s: Step, addr: Word, table: Command -> nat): Mail
    requires Allowed(m, s)
  {
    match s
    case Fill(k, v) => m.(cmd := m.cmd[k := v])
    case SendLow => m.(tohostLow := addr, at := AfterSend(true, m.at.Sending? && m.at.high))
    case SendHigh => m.(tohostHigh := 0, at := AfterSend(m.at.Sending? && m.at.low, true))
    case Poll => if Wide(m.fromhostLow, m.fromhostHigh) != 0 then m.(at := Clearing(false, false)) else m
    case ClearLow => m.(fromhostLow := 0, at := AfterClear(true, m.at.high))
    case ClearHigh => m.(fromhostHigh := 0, at := AfterClear(m.at.low, true))
    case ExitLow(code) => m.(tohostLow := ExitWord(code) % TWO_32, at := Exiting(code))
    case ExitHigh(code) => m.(tohostHigh := ExitWord(code) / TWO_32 % TWO_32, at := Exiting(code))
    case Host => Reply(Take(m, table))
  }

  class Mailbox {
    var tohostLow: Word
    var tohostHigh: Word
    var fromhostLow: Word
    var fromhostHigh: Word
    var tohostCmd: Command
    var fromhostQueue: seq<nat>
    var exitcode: int
    var stopped: bool
    var at: Where
    const addr: Word
    const table: Command -> nat

    function State(): Mail
      reads this
    {
      Mail(tohostLow, tohostHigh, fromhostLow, fromhostHigh, tohostCmd, fromhostQueue, exitcode, stopped, at)
    }

    /** `addr` is where the command block lies; `table` stands for the system calls of the host. */
    constructor (addr: Word, table: Command -> nat)
      ensures State() == Mail(0, 0, 0, 0, [0, 0, 0, 0, 0, 0, 0, 0], [], 0, false, Idle)
      ensures this.addr == addr && this.table == table
    {
      this.addr, this.table := addr, table;
      tohostLow, tohostHigh, fromhostLow, fromhostHigh := 0, 0, 0, 0;
      tohostCmd, fromhostQueue, exitcode, stopped, at := [0, 0, 0, 0, 0, 0, 0, 0], [], 0, false, Idle;
    }

    method ProcessHtio()
      modifies this
      ensures State() == Next(old(State()), Host, addr, table)
    {
      var tohost := Wide(tohostLow, tohostHigh);
      if tohost != 0 {
        tohostLow, tohostHigh := 0, 0;
        if Payload(tohost) % 2 == 1 {
          exitcode, stopped := Int32s.Wrap32(Payload(tohost)), true;
        } else {
          tohostCmd := tohostCmd[0 := table(tohostCmd)];
          fromhostQueue := fromhostQueue + [Response(tohost, 1)];
        }
      }
      hide Payload, Response, Int32s.Wrap32;
      if fromhostQueue != [] && Wide(fromhostLow, fromhostHigh) == 0 {
        fromhostLow, fromhostHigh := fromhostQueue[0] % TWO_32, fromhostQueue[0] / TWO_32 % TWO_32;
        fromhostQueue := fromhostQueue[1..];
      }
    }

    /** The store that starts a call. */
    method StoreTohost(low: bool)
      requires Allowed(State(), if low then SendLow else SendHigh)
      modifies this
      ensures State() == Next(old(State()), if low then SendLow else SendHigh, addr, table)
    {
      if low {
        tohostLow, at := addr, AfterSend(true, at.Sending? && at.high);
      } else {
        tohostHigh, at := 0, AfterSend(at.Sending? && at.low, true);
      }
    }

    /** One half of the store that a program repeats to exit. */
    method StoreExit(code: nat, low: bool)
      requires Allowed(State(), if low then ExitLow(code) else ExitHigh(code))
      modifies this
      ensures State() == Next(old(State()), if low then ExitLow(code) else ExitHigh(code), addr, table)
    {
      at := Exiting(code);
      if low {
        tohostLow := ExitWord(code) % TWO_32;
      } else {
        tohostHigh := ExitWord(code) / TWO_32 % TWO_32;
      }
    }

    /** One round of the busy wait. */
    method PollFromhost() returns (done: bool)
      requires Allowed(State(), Poll)
      modifies this
      ensures State() == Next(old(State()), Poll, addr, table) && (done <==> at.Clearing?)
    {
      done := Wide(fromhostLow, fromhostHigh) != 0;
      if done {
        at := Clearing(false, false);
      }
    }

    /** The store that acknowledges the response. */
    method ClearFromhost(low: bool)
      requires Allowed(State(), if low then ClearLow else ClearHigh)
      modifies this
      ensures State() == Next(old(State()), if low then ClearLow else ClearHigh, addr, table)
    {
      if low {
        fromhostLow, at := 0, AfterClear(true, at.high);
      } else {
        fromhostHigh, at := 0, AfterClear(at.low, true);
      }
    }
  }

  // ---- Responses ----

  /** A queued response goes out whole, once the previous one has been read. */
  lemma {:induction false} ReplyIsWhole(m: Mail)
    requires m.queue != [] && Wide(m.fromhostLow, m.fromhostHigh) == 0
    ensures var d := Reply(m);
            Wide(d.fromhostLow, d.fromhostHigh) == m.queue[0] % (TWO_32 * TWO_32) && d.queue == m.queue[1..]
  {
    var x := m.queue[0];
    var q := x / (TWO_32 * TWO_32);
    assert x == q * (TWO_32 * TWO_32) + x % (TWO_32 * TWO_32);
    assert x / TWO_32 == q * TWO_32 + x % (TWO_32 * TWO_32) / TWO_32;
  }

  /** It names the device and the command of the request, and its value fits below them. */
  lemma {:induction false} ResponseNamesRequest(device: nat, command: nat, payload: nat, resp: nat)
    requires device < 256 && command < 256 && payload < 0x1_0000_0000_0000 && resp < 0x1_0000_0000_0000
    ensures var top := (256 * device + command) * 0x1_0000_0000_0000;
            Response(top + payload, resp) == top + resp && Payload(top + payload) == payload
  {
  }

  // ---- Runs ----

  /** A run: the state, the commands sent, those the host has run, and the results the target went on with. */
  datatype Trace = Trace(mail: Mail, sent: seq<Command>, served: seq<Command>, returned: seq<nat>)

  function Begin(cmd: Command): Trace {
    Trace(Mail(0, 0, 0, 0, cmd, [], 0, false, Idle), [], [], [])
  }

  /** The host runs a command in this step. */
  predicate Serves(m: Mail, s: Step) {
    s.Host? && Wide(m.tohostLow, m.tohostHigh) != 0 && Payload(Wide(m.tohostLow, m.tohostHigh)) % 2 == 0
  }

  function Advance(t: Trace, s: Step, addr: Word, table: Command -> nat): Trace
    requires Allowed(t.mail, s)
  {
    var m := Next(t.mail, s, addr, table);
    Trace(m,
          if s.SendLow? then t.sent + [t.mail.cmd] else t.sent,
          if Serves(t.mail, s) then t.served + [t.mail.cmd] else t.served,
          if m.at.Idle? && t.mail.at.Clearing? then t.returned + [m.cmd[0]] else t.returned)
  }

  function Results(cs: seq<Command>, table: Command -> nat): (r: seq<nat>)
    ensures |r| == |cs|
  {
    seq(|cs|, i requires 0 <= i < |cs| => table(cs[i]))
  }

  /** No call under way in the mailbox. */
  predicate Quiet(t: Trace) {
    t.mail.tohostLow == 0 && t.mail.fromhostLow == 0 && t.served == t.sent
  }

  /** The last command sent waits for the host, unchanged. */
  predicate Pending(t: Trace, addr: Word) {
    && t.mail.tohostLow == addr && t.mail.fromhostLow == 0
    && t.sent == t.served + [t.mail.cmd]
  }

  /** The last command has run: its result is in the command block and its response unread. */
  predicate Answered(t: Trace, table: Command -> nat) {
    && t.mail.tohostLow == 0 && t.mail.fromhostLow == 1
    && t.served == t.sent && t.sent != [] && t.mail.cmd[0] == table(t.sent[|t.sent| - 1])
  }

  /** Commands whose call has not returned: at most one. */
  predicate Open(t: Trace) {
    |t.returned| + 1 == |t.sent|
  }

  ghost predicate Protocol(t: Trace, addr: Word, table: Command -> nat) {
    && t.mail.queue == [] && t.mail.tohostHigh == 0 && t.mail.fromhostHigh == 0
    && (t.mail.stopped ==> t.mail.at.Exiting? && t.mail.exitcode == Int32s.Wrap32(2 * t.mail.at.code + 1))
    && t.returned <= Results(t.sent, table)
    && match t.mail.at
       case Idle => Quiet(t) && |t.returned| == |t.sent|
       case Sending(low, high) =>
         !(low && high) && (if low then Open(t) && (Pending(t, addr) || Answered(t, table))
                            else Quiet(t) && |t.returned| == |t.sent|)
       case Waiting => Open(t) && (Pending(t, addr) || Answered(t, table))
       case Clearing(low, high) =>
         && !(low && high) && Open(t)
         && (if low then Quiet(t) && t.mail.cmd[0] == table(t.sent[|t.sent| - 1]) else Answered(t, table))
       case Exiting(code) =>
         && code < TWO_31 && (t.mail.tohostLow == 0 || t.mail.tohostLow == 2 * code + 1)
         && t.mail.fromhostLow == 0 && t.served == t.sent && |t.returned| == |t.sent|
  }

  /** The code of an exit fits in 31 bits, so that the high half of what is stored is 0. */
  predicate ExitFits(s: Step) {
    match s
    case ExitLow(code) => code < TWO_31
    case ExitHigh(code) => code < TWO_31
    case _ => true
  }

  /** A command block in a 32-bit address space, aligned: neither 0 nor odd, so it is never taken for an exit. */
  predicate AddressOk(addr: Word) {
    addr != 0 && addr % 2 == 0
  }

  lemma WideFacts(low: Word)
    ensures Wide(low, 0) == low && Payload(low) == low
    ensures Response(low, 1) == 1 && 1 % TWO_32 == 1 && 1 / TWO_32 % TWO_32 == 0
  {
  }

  /** What a host step does to a mailbox that keeps the protocol. */
  lemma HostStep(t: Trace, addr: Word, table: Command -> nat)
    requires AddressOk(addr) && Protocol(t, addr, table)
    ensures var m := Next(t.mail, Host, addr, table);
            if t.mail.tohostLow == 0 then m == t.mail
            else if t.mail.at.Exiting? then
              m == t.mail.(tohostLow := 0, exitcode := Int32s.Wrap32(2 * t.mail.at.code + 1), stopped := true)
            else t.mail.tohostLow == addr && t.mail.fromhostLow == 0 &&
                 m == t.mail.(tohostLow := 0, cmd := t.mail.cmd[0 := table(t.mail.cmd)], fromhostLow := 1)
    ensures Serves(t.mail, Host) <==> t.mail.tohostLow != 0 && !t.mail.at.Exiting?
  {
    WideFacts(t.mail.tohostLow);
    WideFacts(t.mail.fromhostLow);
    hide Wide, Payload, Response, Results, Int32s.Wrap32;
  }

  lemma ResultsGrow(sent: seq<Command>, c: Command, returned: seq<nat>, table: Command -> nat)
    requires returned <= Results(sent, table)
    ensures returned <= Results(sent + [c], table)
  {
    assert Results(sent + [c], table) == Results(sent, table) + [table(c)];
  }

  /** The last result, when the earlier ones have been returned. */
  lemma ResultsEnd(sent: seq<Command>, returned: seq<nat>, table: Command -> nat)
    requires returned <= Results(sent, table) && |returned| + 1 == |sent|
    ensures returned + [table(sent[|sent| - 1])] == Results(sent, table)
  {
  }

  lemma HostAdvance(t: Trace, addr: Word, table: Command -> nat)
    requires AddressOk(addr) && Protocol(t, addr, table)
    ensures Advance(t, Host, addr, table) ==
            if t.mail.tohostLow == 0 then t
            else if t.mail.at.Exiting? then
              t.(mail := t.mail.(tohostLow := 0, exitcode := Int32s.Wrap32(2 * t.mail.at.code + 1), stopped := true))
            else Trace(t.mail.(tohostLow := 0, cmd := t.mail.cmd[0 := table(t.mail.cmd)], fromhostLow := 1),
                       t.sent, t.served + [t.mail.cmd], t.returned)
  {
    HostStep(t, addr, table);
    hide Next, Protocol, Serves;
  }

  lemma HostKeeps(t: Trace, addr: Word, table: Command -> nat)
    requires AddressOk(addr) && Protocol(t, addr, table)
    ensures Protocol(Advance(t, Host, addr, table), addr, table)
    ensures t.mail.at.Waiting? ==> Answered(Advance(t, Host, addr, table), table) &&
                                   Advance(t, Host, addr, table).mail.at.Waiting?
  {
    HostAdvance(t, addr, table);
    hide Advance, Results, Int32s.Wrap32;
    if t.mail.tohostLow != 0 && !t.mail.at.Exiting? {
      assert Pending(t, addr);
      assert t.sent[|t.sent| - 1] == t.mail.cmd;
    }
  }

  lemma SendKeeps(t: Trace, s: Step, addr: Word, table: Command -> nat)
    requires AddressOk(addr) && Protocol(t, addr, table) && Allowed(t.mail, s)
    requires s.SendLow? || s.SendHigh? || s.Fill?
    ensures Protocol(Advance(t, s, addr, table), addr, table)
  {
    ResultsGrow(t.sent, t.mail.cmd, t.returned, table);
    hide Results, Wide, Payload;
  }

  lemma PollKeeps(t: Trace, addr: Word, table: Command -> nat)
    requires Protocol(t, addr, table) && t.mail.at.Waiting?
    ensures Protocol(Advance(t, Poll, addr, table), addr, table)
    ensures Answered(t, table) ==> Advance(t, Poll, addr, table).mail.at.Clearing?
  {
    PollAdvance(t, addr, table);
    hide Results, Advance;
  }

  lemma PollAdvance(t: Trace, addr: Word, table: Command -> nat)
    requires t.mail.fromhostHigh == 0 && t.mail.at.Waiting?
    ensures Advance(t, Poll, addr, table) ==
            if t.mail.fromhostLow == 0 then t else t.(mail := t.mail.(at := Clearing(false, false)))
  {
    WideFacts(t.mail.fromhostLow);
    hide Wide, Payload;
  }

  lemma ClearKeeps(t: Trace, s: Step, addr: Word, table: Command -> nat)
    requires Protocol(t, addr, table) && Allowed(t.mail, s) && (s.ClearLow? || s.ClearHigh?)
    ensures Protocol(Advance(t, s, addr, table), addr, table)
  {
    ResultsEnd(t.sent, t.returned, table);
    hide Results, Wide, Payload;
  }

  lemma ExitKeeps(t: Trace, s: Step, addr: Word, table: Command -> nat)
    requires Protocol(t, addr, table) && Allowed(t.mail, s) && ExitFits(s) && (s.ExitLow? || s.ExitHigh?)
    ensures Protocol(Advance(t, s, addr, table), addr, table)
  {
    ExitAdvance(t, s, addr, table);
    hide Results, Advance, Int32s.Wrap32, Allowed;
  }

  lemma ExitAdvance(t: Trace, s: Step, addr: Word, table: Command -> nat)
    requires Protocol(t, addr, table) && Allowed(t.mail, s) && ExitFits(s) && (s.ExitLow? || s.ExitHigh?)
    ensures var code := s.code;
            && (t.mail.at.Idle? || t.mail.at == Exiting(code)) && code < TWO_31
            && Advance(t, s, addr, table) ==
               t.(mail := if s.ExitLow? then t.mail.(tohostLow := 2 * code + 1, at := Exiting(code))
                          else t.mail.(at := Exiting(code)))
  {
    assert ExitWord(s.code) == 2 * s.code + 1 < TWO_32;
    hide Results, Wide, Payload, Int32s.Wrap32, ExitWord;
  }

  /** Every step of either side keeps the protocol, in every interleaving. */
  lemma StepKeepsProtocol(t: Trace, s: Step, addr: Word, table: Command -> nat)
    requires AddressOk(addr) && Protocol(t, addr, table) && Allowed(t.mail, s) && ExitFits(s)
    ensures Protocol(Advance(t, s, addr, table), addr, table)
  {
    hide Protocol, Advance;
    match s
    case Host => HostKeeps(t, addr, table);
    case Poll => PollKeeps(t, addr, table);
    case ClearLow => ClearKeeps(t, s, addr, table);
    case ClearHigh => ClearKeeps(t, s, addr, table);
    case ExitLow(_) => ExitKeeps(t, s, addr, table);
    case ExitHigh(_) => ExitKeeps(t, s, addr, table);
    case _ => SendKeeps(t, s, addr, table);
  }

  function Run(cmd: Command, steps: seq<Step>, addr: Word, table: Command -> nat): Trace
  {
    if steps == [] then Begin(cmd) else
      Try(Run(cmd, steps[..|steps| - 1], addr, table), steps[|steps| - 1], addr, table)
  }

  /** A step that is not allowed does not happen. */
  function Try(t: Trace, s: Step, addr: Word, table: Command -> nat): Trace {
    if Allowed(t.mail, s) then Advance(t, s, addr, table) else t
  }

  /**
   In every interleaving of the two sides: at most one request or response is outstanding; each command is run by the
   host at most once, in the order sent and with the contents it was sent with; and every call that has returned went
   on with the result of its command.
   */
  lemma {:induction false} EveryInterleaving(cmd: Command, steps: seq<Step>, addr: Word, table: Command -> nat)
    requires AddressOk(addr) && forall s <- steps :: ExitFits(s)
    ensures var t := Run(cmd, steps, addr, table);
            && Protocol(t, addr, table)
            && (t.mail.tohostLow == 0 || t.mail.fromhostLow == 0) && t.mail.queue == []
            && t.served <= t.sent && |t.sent| <= |t.served| + 1
            && t.returned <= Results(t.sent, table) && |t.returned| <= |t.served|
            && (t.mail.stopped ==> t.mail.at.Exiting? && t.mail.exitcode == Int32s.Wrap32(2 * t.mail.at.code + 1))
  {
    if steps != [] {
      var t := Run(cmd, steps[..|steps| - 1], addr, table);
      EveryInterleaving(cmd, steps[..|steps| - 1], addr, table);
      hide Next, Wide, Results, Take, Reply, Serves, ExitFits, Int32s.Wrap32, Protocol;
      if Allowed(t.mail, steps[|steps| - 1]) {
        StepKeepsProtocol(t, steps[|steps| - 1], addr, table);
      }
    }
    ProtocolMeans(Run(cmd, steps, addr, table), addr, table);
  }

  lemma ProtocolMeans(t: Trace, addr: Word, table: Command -> nat)
    requires AddressOk(addr) && Protocol(t, addr, table)
    ensures (t.mail.tohostLow == 0 || t.mail.fromhostLow == 0) && t.mail.queue == []
    ensures t.served <= t.sent && |t.sent| <= |t.served| + 1
    ensures t.returned <= Results(t.sent, table) && |t.returned| <= |t.served|
    ensures t.mail.stopped ==> t.mail.at.Exiting? && t.mail.exitcode == Int32s.Wrap32(2 * t.mail.at.code + 1)
  {
    hide Results, Int32s.Wrap32;
  }

  /** A waiting target: after one step of the host the next round of the busy wait ends, with the result in place. */
  lemma HostEndsTheWait(t: Trace, addr: Word, table: Command -> nat)
    requires AddressOk(addr) && Protocol(t, addr, table) && t.mail.at.Waiting?
    ensures var t1 := Advance(t, Host, addr, table);
            && t1.mail.at.Waiting? && Answered(t1, table)
            && Advance(t1, Poll, addr, table).mail.at.Clearing?
  {
    HostKeeps(t, addr, table);
    PollKeeps(Advance(t, Host, addr, table), addr, table);
    hide Protocol, Advance;
  }

  /**
   An exit: once the low half is stored, the next step of the host stops the simulation, and it touches nothing else. It
   reports the code of the program exactly if that has 30 bits.
   */
  lemma {:induction false} ExitIsReported(t: Trace, addr: Word, table: Command -> nat)
    requires AddressOk(addr) && Protocol(t, addr, table) && t.mail.at.Exiting? && t.mail.tohostLow != 0
    ensures var m := Next(t.mail, Host, addr, table);
            && m.stopped && m == t.mail.(tohostLow := 0, exitcode := m.exitcode, stopped := true)
            && (ExitCode(m) == t.mail.at.code <==> t.mail.at.code < 0x4000_0000)
  {
    HostStep(t, addr, table);
    hide Protocol, Next;
    ShiftedBack(t.mail.at.code);
  }

  lemma ShiftedBack(code: nat)
    requires code < TWO_31
    ensures Int32s.Wrap32(2 * code + 1) / 2 == if code < 0x4000_0000 then code else code - TWO_31
  {
  }

  /** A longer code: the host can meet the high half alone, takes it for a command, runs it and goes on. */
  lemma {:induction false} LongExitRunsACommand(cmd: Command, addr: Word, table: Command -> nat)
    ensures var t := Run(cmd, [ExitHigh(TWO_31), Host], addr, table);
            t.served == [cmd] && t.sent == [] && !t.mail.stopped && t.mail.fromhostLow == 1
  {
    var a, b: seq<Step> := [ExitHigh(TWO_31)], [ExitHigh(TWO_31), Host];
    assert b[..1] == a && a[..0] == [];
    hide Advance;
    assert Run(cmd, [], addr, table) == Begin(cmd);
    assert Run(cmd, a, addr, table) == Advance(Begin(cmd), ExitHigh(TWO_31), addr, table);
    assert Run(cmd, b, addr, table) == Advance(Run(cmd, a, addr, table), Host, addr, table);
    HighHalfFirst(cmd, addr, table);
  }

  lemma HighHalfFirst(cmd: Command, addr: Word, table: Command -> nat)
    ensures var t := Advance(Begin(cmd), ExitHigh(TWO_31), addr, table);
            && t == Begin(cmd).(mail := Begin(cmd).mail.(tohostHigh := 1, at := Exiting(TWO_31)))
            && Advance(t, Host, addr, table) ==
               Trace(Begin(cmd).mail.(fromhostLow := 1, cmd := cmd[0 := table(cmd)], at := Exiting(TWO_31)), [], [cmd], [])
  {
    assert ExitWord(TWO_31) == TWO_32 + 1;
    LongPayload();
    hide Wide, Payload, Response, ExitWord;
    var m := Begin(cmd).mail.(tohostHigh := 1, at := Exiting(TWO_31));
    assert Next(Begin(cmd).mail, ExitHigh(TWO_31), addr, table) == m;
    assert Take(m, table) == m.(tohostHigh := 0, cmd := cmd[0 := table(cmd)], queue := [1]);
  }

  lemma LongPayload()
    ensures Wide(0, 1) == TWO_32 && Payload(TWO_32) == TWO_32 && Response(TWO_32, 1) == 1 && Wide(0, 0) == 0
  {
  }

  /** A call, step by step: the halves of its two stores may be done in either order. */
  function Call(lowFirst: bool, clearLowFirst: bool): seq<Step> {
    [if lowFirst then SendLow else SendHigh, if lowFirst then SendHigh else SendLow, Host, Poll,
     if clearLowFirst then ClearLow else ClearHigh, if clearLowFirst then ClearHigh else ClearLow]
  }

  /** From the first state a call can be made to its end, and it returns the result of its command. */
  lemma {:induction false} OneCall(cmd: Command, lowFirst: bool, clearLowFirst: bool, addr: Word, table: Command -> nat)
    requires AddressOk(addr)
    ensures var t := Run(cmd, Call(lowFirst, clearLowFirst), addr, table);
            t.mail.at.Idle? && t.sent == [cmd] && t.served == [cmd] && t.returned == [table(cmd)]
  {
    var c := Call(lowFirst, clearLowFirst);
    RunSix(cmd, c, addr, table);
    SendBoth(cmd, lowFirst, addr, table);
    ServeAndPoll(cmd, addr, table);
    ClearBoth(cmd, clearLowFirst, addr, table);
    hide Try, Results;
  }

  /** After the two halves of the first store, and after the response has been seen. */
  function Sent(cmd: Command, addr: Word): Trace {
    Trace(Mail(addr, 0, 0, 0, cmd, [], 0, false, Waiting), [cmd], [], [])
  }

  function Seen(cmd: Command, table: Command -> nat): Trace {
    Trace(Mail(0, 0, 1, 0, cmd[0 := table(cmd)], [], 0, false, Clearing(false, false)), [cmd], [cmd], [])
  }

  lemma SendBoth(cmd: Command, lowFirst: bool, addr: Word, table: Command -> nat)
    ensures var a, b := if lowFirst then SendLow else SendHigh, if lowFirst then SendHigh else SendLow;
            Try(Try(Begin(cmd), a, addr, table), b, addr, table) == Sent(cmd, addr)
  {
    hide Wide, Payload;
  }

  lemma ServeAndPoll(cmd: Command, addr: Word, table: Command -> nat)
    requires AddressOk(addr)
    ensures Try(Try(Sent(cmd, addr), Host, addr, table), Poll, addr, table) == Seen(cmd, table)
  {
    SentKeeps(cmd, addr, table);
    var t := Sent(cmd, addr);
    HostAdvance(t, addr, table);
    hide Protocol, Advance;
    PollAdvance(Advance(t, Host, addr, table), addr, table);
  }

  lemma SentKeeps(cmd: Command, addr: Word, table: Command -> nat)
    ensures Protocol(Sent(cmd, addr), addr, table)
  {
    assert [cmd] == [] + [cmd];
  }

  lemma ClearBoth(cmd: Command, clearLowFirst: bool, addr: Word, table: Command -> nat)
    ensures var a, b := if clearLowFirst then ClearLow else ClearHigh, if clearLowFirst then ClearHigh else ClearLow;
            var t := Try(Try(Seen(cmd, table), a, addr, table), b, addr, table);
            t.mail.at.Idle? && t.sent == [cmd] && t.served == [cmd] && t.returned == [table(cmd)]
  {
    hide Wide, Payload;
  }

  lemma RunSix(cmd: Command, c: seq<Step>, addr: Word, table: Command -> nat)
    requires |c| == 6
    ensures Run(cmd, c, addr, table) ==
            Try(Try(Try(Try(Try(Try(Begin(cmd), c[0], addr, table), c[1], addr, table), c[2], addr, table),
                        c[3], addr, table), c[4], addr, table), c[5], addr, table)
  {
    hide Advance, Allowed;
    assert c[..5][..4] == c[..4] && c[..4][..3] == c[..3] && c[..3][..2] == c[..2] && c[..2][..1] == c[..1];
    assert c[..1][..0] == [];
    assert Run(cmd, c[..0], addr, table) == Begin(cmd);
    assert Run(cmd, c[..1], addr, table) == Try(Begin(cmd), c[0], addr, table);
    assert Run(cmd, c[..2], addr, table) == Try(Run(cmd, c[..1], addr, table), c[1], addr, table);
    assert Run(cmd, c[..3], addr, table) == Try(Run(cmd, c[..2], addr, table), c[2], addr, table);
    assert Run(cmd, c[..4], addr, table) == Try(Run(cmd, c[..3], addr, table), c[3], addr, table);
    assert Run(cmd, c[..5], addr, table) == Try(Run(cmd, c[..4], addr, table), c[4], addr, table);
  }
}
