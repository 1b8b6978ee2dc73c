/** The master: commands and replies, connection state, transfers and data acquisition. */
module CcpMaster {
  import opened Bytes
  import opened CcpLink
  import opened CcpSlave
  import opened CcpSteps
  import opened Wrappers

  /** Results from the slave's error byte, and the master's own. */
  datatype CmdResult = OK | Error(code: u8) | ProtocolFailure | SndCmdFailed | Timeout | InvalidArgument

  function FromByte(b: u8): CmdResult {
    if b == 0 then OK else if b == 253 then ProtocolFailure else Error(b)
  }

  /** What a reply says: the slave's error first, whoever it was meant for, then the counter and the length. */
  function Verdict(data: bytes, ctr: u8, minLen: nat): (r: CmdResult)
    requires |data| >= 3
    ensures r == OK <==> data[1] == 0 && data[2] == ctr && |data| >= minLen
    ensures r == OK || r.Error? || r.ProtocolFailure?
  {
    if data[1] != 0 then FromByte(data[1])
    else if ctr != data[2] then ProtocolFailure
    else if minLen > |data| then ProtocolFailure
    else OK
  }

  /** The optional commands the master asks about. */
  datatype Feature =
    | OptGetStatus | OptSetStatus | OptUnlock | OptGetPage | OptShortUp | OptDnload6 | OptProgram6 | OptStartStopAll

  /** A source of measurements: its key, and its list as the slave knows it, if it has one. */
  datatype Qp = Qp(daqNo: nat, length: nat, firstPid: u8)
  datatype Raster = Raster(key: nat, qp: Option<Qp>)

  const ALL_LISTS := 0xFFFF
  const NO_ADDRESS := 0xFFFF_FFFF
  const RES_MIN := 3
  const CAL_AND_RUN: u8 := 0x81

  /** The session state's data acquisition bit, cleared or set. */
  function WithDaq(state: u8, on: bool): u8 {
    if state / 2 % 2 == (if on then 1 else 0) then state else if on then state + 2 else state - 2
  }

  /** Tables for every source, small enough for the bytes of the protocol. */
  predicate Fills(rasters: seq<Raster>, tables: seq<seq<seq<OdtEntry>>>) {
    && |tables| == |rasters|
    && (forall i :: 0 <= i < |rasters| ==> rasters[i].key < 256 && |tables[i]| <= 256)
    && (forall i, b :: 0 <= i < |rasters| && 0 <= b < |tables[i]| ==> |tables[i][b]| <= 256)
    && (forall i, j :: 0 <= i < j < |rasters| ==> rasters[i].key != rasters[j].key)
  }

  /** The same sources, whose lists may have become shorter. */
  ghost predicate Narrowed(before: seq<Raster>, after: seq<Raster>) {
    && |after| == |before|
    && forall i :: 0 <= i < |before| ==>
         && after[i].key == before[i].key && (after[i].qp.Some? <==> before[i].qp.Some?)
         && (after[i].qp.Some? ==> after[i].qp.value.daqNo == before[i].qp.value.daqNo
                                   && after[i].qp.value.length <= before[i].qp.value.length)
  }

  function ListsOf(rasters: seq<Raster>, tables: seq<seq<seq<OdtEntry>>>): seq<DaqList>
    requires |tables| == |rasters|
  {
    seq(|rasters|, i requires 0 <= i < |rasters| => DaqList(rasters[i].key, tables[i]))
  }

  /**
   Commands sent with too many unanswered ones behind them, commands that ended without a positive answer, those of them
   that asked for the size of a list, commands that ended without taking a reply, and commands sent.
   */
  datatype Costs = Costs(overruns: nat, failed: nat, unsized: nat, unanswered: nat, sent: nat)

  /** How often a starting command was sent while an element was missing, or while some list was not exact. */
  datatype Tally = Tally(missing: nat, inexact: nat)

  ghost function Counted(t: Tally, c: Command, daq: Daq, lists: seq<DaqList>): Tally {
    if !c.IsStart() then t
    else Tally(t.missing + (if HasLists(daq, lists) then 0 else 1), t.inexact + if AllExact(daq, lists) then 0 else 1)
  }

  lemma NotCounted(t: Tally, c: Command, daq: Daq, lists: seq<DaqList>)
    ensures !c.IsStart() ==> Counted(t, c, daq, lists) == t
  {
  }

  /** What sending some starting commands, or none, does to the tally. */
  ghost predicate Tallied(t: Tally, u: Tally, daq: Daq, lists: seq<DaqList>, started: bool) {
    && t.missing <= u.missing && t.inexact <= u.inexact
    && (u.missing > t.missing <==> started && !HasLists(daq, lists))
    && (u.inexact > t.inexact <==> started && !AllExact(daq, lists))
  }

  function ModeOf(synchronized: bool): (mode: StartMode)
    ensures mode != Stop
  {
    if synchronized then Select else Start
  }

  lemma NothingTallied(t: Tally, daq: Daq, lists: seq<DaqList>)
    ensures Tallied(t, t, daq, lists, false)
  {
  }

  lemma TalliedMore(t: Tally, u: Tally, daq: Daq, lists: seq<DaqList>, started: bool, c: Command)
    requires Tallied(t, u, daq, lists, started) && c.IsStart()
    ensures Tallied(t, Counted(u, c, daq, lists), daq, lists, true)
  {
    hide HasLists, AllExact;
  }

  lemma TallyIs(t: Tally, u: Tally, daq: Daq, lists: seq<DaqList>, started: bool)
    requires Tallied(t, u, daq, lists, started)
    ensures t.missing <= u.missing && t.inexact <= u.inexact
    ensures u.missing > t.missing <==> started && !HasLists(daq, lists)
    ensures u.inexact > t.inexact <==> started && !AllExact(daq, lists)
  {
  }

  /** The first `n` lists with tables are in the set of those going. */
  ghost predicate Going(going: set<nat>, lists: seq<DaqList>, n: nat)
    requires n <= |lists|
  {
    forall j :: 0 <= j < n && lists[j].odts != [] ==> lists[j].number in going
  }

  lemma NoneStarted(lists: seq<DaqList>)
    ensures Bare(lists, 0) && forall going: set<nat> :: Going(going, lists, 0)
  {
  }

  /** One list further. */
  lemma StartingAt(lists: seq<DaqList>, rasters: seq<Raster>, i: nat, going: set<nat>)
    requires i < |lists|
    ensures Bare(lists, i + 1) <==> Bare(lists, i) && lists[i].odts == []
    ensures lists[i].odts != [] && Bare(lists, i) ==> (CanStart(lists, rasters) <==> HasKey(rasters, lists[i].number))
    ensures Going(going, lists, i) && lists[i].odts == [] ==> Going(going, lists, i + 1)
    ensures Going(going, lists, i) ==> Going(going + {lists[i].number}, lists, i + 1)
    ensures FitBytes(lists) ==> FitByte(lists[i]) && lists[i].number < 256
  {
    hide HasKey;
  }

  lemma AllStarted(lists: seq<DaqList>, rasters: seq<Raster>, running: set<nat>, prepared: set<nat>)
    ensures Going(prepared, lists, |lists|) ==> Going(running + prepared, lists, |lists|)
    ensures Bare(lists, |lists|) ==> Going(running, lists, |lists|) && !CanStart(lists, rasters)
    ensures CanStart(lists, rasters) ==> !Bare(lists, |lists|)
  {
    hide HasKey;
  }

  lemma NoStart(s: Slave, lists: seq<DaqList>, rasters: seq<Raster>)
    requires lists == []
    ensures !CanStart(lists, rasters) && Going(s.running, lists, |lists|)
  {
  }

  /** What a scripted fate makes of a command, when no reply was outstanding before. */
  ghost predicate Fated(fate: Fate, r: CmdResult, queue: seq<Reply>, s: Slave, t: Slave, c: Command) {
    match fate
    case Obeyed => r == OK && queue == [] && t == Exec(s, c)
    case Refused(_) => (r.Error? || r.ProtocolFailure?) && queue == [] && t == s
    case Lost => r == Timeout && queue == [] && t == s
    case _ => true
  }

  lemma FateDecides(fate: Fate, ctr: u8, c: Command, s: Slave, serial: nat, minLen: nat)
    requires RES_MIN <= minLen <= 8
    ensures var q := RepliesOf(fate, ctr, c, s, serial);
            && (fate.Obeyed? ==> |q| == 1 && |q[0].data| == 8 && Verdict(q[0].data, ctr, minLen) == OK)
            && (fate.Refused? ==> |q| == 1 && |q[0].data| == 3
                                  && var r := Verdict(q[0].data, ctr, minLen); r.Error? || r.ProtocolFailure?)
            && (fate.Lost? ==> q == [])
  {
    hide Exec, Answer;
  }

  lemma AfterFateIs(fate: Fate, c: Command, s: Slave)
    ensures fate.Obeyed? ==> AfterFate(fate, c, s) == Exec(s, c)
    ensures fate.Refused? || fate.Lost? ==> AfterFate(fate, c, s) == s
  {
    hide Exec;
  }

  /** A command that found no reply outstanding fares as scripted. */
  lemma FateIs(fate: Fate, ctr: u8, c: Command, s: Slave, t: Slave, serial: nat, minLen: nat, arrived: seq<Reply>,
               queue: seq<Reply>, r: CmdResult)
    requires RES_MIN <= minLen <= 8
    requires !fate.Free? ==> t == AfterFate(fate, c, s) && arrived == RepliesOf(fate, ctr, c, s, serial)
    requires !fate.Free? ==>
               if fate.Delivers() && arrived != []
               then |arrived[0].data| >= 3 ==> r == Verdict(arrived[0].data, ctr, minLen) && queue == arrived[1..]
               else r == Timeout && queue == arrived
    ensures Fated(fate, r, queue, s, t, c)
  {
    hide Exec, RepliesOf, AfterFate, Verdict;
    FateDecides(fate, ctr, c, s, serial, minLen);
    AfterFateIs(fate, c, s);
  }

  /** Everything is obeyed at once, but for questions about the size of a list, which may be refused or lost. */
  ghost predicate Willing(policy: (nat, Command) -> Fate) {
    forall n: nat, c: Command :: policy(n, c).Delivers() && (!c.GetDaqSize? ==> policy(n, c).Obeyed?)
  }

  /** No question about the size of a list is heard. */
  ghost predicate Deaf(policy: (nat, Command) -> Fate) {
    forall n: nat, c: Command :: c.GetDaqSize? ==> !policy(n, c).Obeyed?
  }

  /** Nothing is lost. */
  ghost predicate Responsive(policy: (nat, Command) -> Fate) {
    forall n: nat, c: Command :: !policy(n, c).Lost?
  }

  /** Questions about the size of a list get lost. */
  ghost predicate Lossy(policy: (nat, Command) -> Fate) {
    forall n: nat, c: Command :: c.GetDaqSize? ==> policy(n, c).Lost?
  }

  lemma SizeAsked(s: Slave, t: Slave, list: nat)
    ensures t == Exec(s, GetDaqSize(list)) ==> t.mem == s.mem && t.daq == Clear(s.daq, list)
  {
  }

  /** Some source has this list. */
  ghost predicate HasSource(rasters: seq<Raster>, daqNo: nat) {
    exists k :: 0 <= k < |rasters| && rasters[k].qp.Some? && rasters[k].qp.value.daqNo == daqNo
  }

  /** The list of every source bears its key. */
  ghost predicate OwnLists(rasters: seq<Raster>) {
    forall k :: 0 <= k < |rasters| ==> rasters[k].qp.Some? && rasters[k].qp.value.daqNo == rasters[k].key
  }

  lemma NarrowedKeeps(before: seq<Raster>, after: seq<Raster>)
    requires Narrowed(before, after)
    ensures OwnLists(before) ==> OwnLists(after)
    ensures forall n :: HasSource(before, n) ==> HasSource(after, n)
  {
    forall n | HasSource(before, n) ensures HasSource(after, n) {
      var k :| 0 <= k < |before| && before[k].qp.Some? && before[k].qp.value.daqNo == n;
      assert after[k].qp.Some? && after[k].qp.value.daqNo == n;
    }
  }

  lemma ListsHaveSources(rasters: seq<Raster>, tables: seq<seq<seq<OdtEntry>>>)
    requires OwnLists(rasters) && |tables| == |rasters|
    ensures forall i :: 0 <= i < |rasters| ==> HasSource(rasters, ListsOf(rasters, tables)[i].number)
  {
  }

  lemma NoSource(rasters: seq<Raster>, daqNo: nat)
    ensures rasters == [] ==> !HasSource(rasters, daqNo)
  {
  }

  lemma SourceUpTo(rasters: seq<Raster>, i: nat, daqNo: nat)
    requires i < |rasters|
    ensures HasSource(rasters[..i + 1], daqNo)
       <==> HasSource(rasters[..i], daqNo) || (rasters[i].qp.Some? && rasters[i].qp.value.daqNo == daqNo)
  {
    assert rasters[..i + 1] == rasters[..i] + [rasters[i]];
    if k :| 0 <= k < i && rasters[k].qp.Some? && rasters[k].qp.value.daqNo == daqNo {
      assert rasters[..i][k] == rasters[..i + 1][k] == rasters[k];
    }
    if HasSource(rasters[..i + 1], daqNo) {
      var k :| 0 <= k <= i && rasters[..i + 1][k].qp.Some? && rasters[..i + 1][k].qp.value.daqNo == daqNo;
      assert k < i ==> rasters[..i][k] == rasters[..i + 1][k];
    }
    if rasters[i].qp.Some? && rasters[i].qp.value.daqNo == daqNo {
      assert rasters[..i + 1][i] == rasters[i];
    }
  }

  /** No list before the `n`th has tables. */
  ghost predicate Bare(lists: seq<DaqList>, n: nat)
    requires n <= |lists|
  {
    forall j :: 0 <= j < n ==> lists[j].odts == []
  }

  ghost predicate HasKey(rasters: seq<Raster>, key: nat) {
    exists k :: 0 <= k < |rasters| && rasters[k].key == key
  }

  /** A list that would have to be started belongs to no source. */
  ghost predicate SomeOrphan(lists: seq<DaqList>, rasters: seq<Raster>) {
    exists i :: 0 <= i < |lists| && lists[i].odts != [] && !HasKey(rasters, lists[i].number)
  }

  /** The first list with tables, if there is one, belongs to a source: a starting command will be sent. */
  ghost predicate CanStart(lists: seq<DaqList>, rasters: seq<Raster>) {
    exists i :: 0 <= i < |lists| && lists[i].odts != [] && HasKey(rasters, lists[i].number) && Bare(lists, i)
  }

  lemma KnownKey(rasters: seq<Raster>, key: nat)
    ensures HasKey(rasters, key) <==> exists k :: 0 <= k < |rasters| && rasters[k].key == key
  {
  }

  lemma OrphanAt(lists: seq<DaqList>, rasters: seq<Raster>, i: nat)
    requires i < |lists| && lists[i].odts != [] && !HasKey(rasters, lists[i].number)
    ensures SomeOrphan(lists, rasters)
  {
  }

  /** What a user may ask of the master. */
  datatype Request =
    | DoConnect | DoDisconnect(useTimeout: int) | DoConfigure(tables: Option<seq<seq<seq<OdtEntry>>>>)
    | DoStart(doSynchronized: bool) | DoStop | DoPoll
    | DoRead(len: nat, extension: nat, address: u32) | DoWrite(extension: nat, address: u32, data: bytes, prog: bool)

  class Master {
    const device: Device
    const preventDefaultRequests: bool
    const respectOptional: bool
    const optional: set<Feature>
    const pageIsRam: bytes -> bool
    const hasSeedAndKey: bool

    var commandCtr: u8
    var lastResponse: Option<bytes>
    var lastError: CmdResult
    var connected: bool
    var slaveConnected: bool
    var activePage: Option<bytes>
    var idString: bytes
    var isDaqRunning: bool
    var daqConfigDirty: bool
    var lists: seq<DaqList>
    var rasters: seq<Raster>

    /** The values given to the connection callbacks so far. */
    ghost var events: seq<bool>
    /** How many commands have ended without taking a reply since no reply was outstanding. */
    ghost var unanswered: nat
    /** How many commands were sent with 256 or more such commands behind them. */
    ghost var overruns: nat
    /** The starting commands sent too early. */
    ghost var early: Tally
    /** How many commands have ended without a positive answer. */
    ghost var failed: nat
    /** How many of them asked for the size of a list. */
    ghost var unsized: nat
    /** Whether the session was ended since the lists were last written. */
    ghost var ended: bool
    /** Whether a command of the last programming overran. */
    ghost var doubted: bool
    /** The lists that gave no positive answer when last asked for their size, and how many there have been. */
    ghost var unheard: set<nat>
    ghost var vain: nat

    constructor (device: Device, preventDefaultRequests: bool, respectOptional: bool, optional: set<Feature>,
                 pageIsRam: bytes -> bool, hasSeedAndKey: bool, rasters: seq<Raster>)
      requires device.queue == [] && device.serial == 0
      ensures Valid() && this.device == device && this.rasters == rasters && lists == [] && !daqConfigDirty
      ensures this.preventDefaultRequests == preventDefaultRequests && !connected && !slaveConnected && !isDaqRunning
      ensures unanswered == 0 && overruns == 0 && early == Tally(0, 0) && failed == 0 && unsized == 0 && events == []
      ensures !ended && !doubted && unheard == {} && vain == 0
    {
      this.device, this.preventDefaultRequests, this.respectOptional := device, preventDefaultRequests, respectOptional;
      this.optional, this.pageIsRam, this.hasSeedAndKey, this.rasters := optional, pageIsRam, hasSeedAndKey, rasters;
      commandCtr, lastResponse, lastError, connected, slaveConnected := 0, None, OK, false, false;
      activePage, idString, isDaqRunning, daqConfigDirty, lists := None, [], false, false, [];
      events, unanswered, overruns, early, failed, unsized, ended := [], 0, 0, Tally(0, 0), 0, 0, false;
      doubted, unheard, vain := false, {}, 0;
    }

    // ----- Invariants -----

    /**
     The counter is the number of commands sent, no waiting reply is older than the unanswered commands, and none of
     them count once no reply waits.
     */
    ghost predicate Linked()
      reads `commandCtr, `unanswered, device
    {
      && commandCtr == device.serial % 256
      && InOrder(device.queue, device.serial)
      && (if device.queue == [] then unanswered == 0 else device.serial - device.queue[0].serial <= unanswered)
    }

    lemma LinkedIs()
      requires Linked()
      ensures InOrder(device.queue, device.serial) && (device.queue == [] <==> unanswered == 0)
      ensures device.queue != [] ==> device.serial - device.queue[0].serial <= unanswered
    {
    }

    /** The callbacks saw true and false in turn, and the last value is the connection state. */
    ghost predicate Announced()
      reads `connected, `events
    {
      && (forall i :: 0 <= i < |events| ==> (events[i] <==> i % 2 == 0))
      && (connected <==> |events| % 2 == 1)
    }

    ghost predicate Core()
      reads `commandCtr, `unanswered, `connected, `events, device
    {
      Linked() && Announced()
    }

    /** What a clean flag means, unless the session was ended meanwhile or the programming overran. */
    ghost predicate Clean()
      reads `doubted, `daqConfigDirty, `ended, `lists, `unheard, device
    {
      !doubted && !daqConfigDirty && !ended ==> InStep(device.slave.daq, lists, unheard)
    }

    /** Connecting again after the end of a session leaves the flag dirty, unless default requests are prevented. */
    ghost predicate Renewed()
      reads `connected, `daqConfigDirty, `ended
    {
      connected && !preventDefaultRequests && !daqConfigDirty ==> !ended
    }

    ghost predicate Valid()
      reads this, device
    {
      Core() && FitBytes(lists) && Clean() && Renewed()
    }

    /** The connection is as it was, or lost. */
    ghost predicate Kept(c: bool, s: bool)
      reads `connected, `slaveConnected
    {
      (connected == c && slaveConnected == s) || (!connected && !slaveConnected)
    }

    ghost function Spent(): Costs
      reads `overruns, `failed, `unsized, `unanswered, device
    {
      Costs(overruns, failed, unsized, unanswered, device.serial)
    }

    /**
     Unanswered commands and vain questions for a size are among the failed ones, and those are among the ones sent.
     With fewer than 256 failed commands, counting those unanswered before, none overruns.
     */
    ghost predicate Grew(c: Costs)
      reads `overruns, `failed, `unsized, `unanswered, device
    {
      && c.overruns <= overruns && c.failed <= failed && c.unsized <= unsized && c.sent <= device.serial
      && overruns - c.overruns <= device.serial - c.sent
      && unsized - c.unsized <= failed - c.failed <= device.serial - c.sent
      && unanswered <= c.unanswered + (failed - c.failed)
      && (c.unanswered + (failed - c.failed) < 256 ==> overruns == c.overruns)
    }

    /** The slave is willing and no reply is outstanding. */
    ghost predicate Prompt(queue: seq<Reply>) {
      Willing(device.policy) && queue == []
    }

    /** No reply is outstanding, and nothing overran. */
    ghost predicate Idle(o: nat)
      reads `overruns, device
    {
      device.queue == [] && overruns == o
    }

    ghost predicate Same(c: bool, s: bool)
      reads `connected, `slaveConnected
    {
      connected == c && slaveConnected == s
    }

    predicate IsAllowed(f: Feature)
    {
      !respectOptional || f in optional
    }

    // ----- Replies -----

    method ClassifyFrame(frame: bytes) returns (resp: Option<bytes>)
      modifies this`lastResponse
      ensures resp == if frame != [] && frame[0] == REPLY then Some(frame) else None
      ensures lastResponse == if resp.Some? then resp else old(lastResponse)
    {
      if frame != [] && frame[0] == REPLY {
        lastResponse := Some(frame);
        return Some(frame);
      }
      resp := None;
    }

    /** The oldest reply, or nothing when the environment lets the deadline pass. */
    method WaitResponse() returns (resp: Option<bytes>)
      requires InOrder(device.queue, device.serial)
      modifies this`lastResponse, device
      ensures device.slave == old(device.slave) && device.serial == old(device.serial)
              && device.fate == old(device.fate)
      ensures !device.fate.Free? ==> (resp.Some? <==> device.fate.Delivers() && old(device.queue) != [])
      ensures resp.None? ==> device.queue == old(device.queue)
      ensures resp.Some? ==> old(device.queue) != [] && device.queue == old(device.queue)[1..]
                             && resp.value == old(device.queue)[0].data
    {
      var more: int := *;
      var frames, received := if more > 0 then more + 1 else 1, false;
      while frames > 0
        invariant frames >= 0 && (received || frames > 0)
        invariant device.slave == old(device.slave) && device.serial == old(device.serial)
                  && device.fate == old(device.fate)
        invariant device.queue == old(device.queue)
        invariant received && !device.fate.Free? ==> !device.fate.Delivers() || device.queue == []
      {
        var frame := device.Receive();
        if frame.Some? {
          resp := ClassifyFrame(frame.value);
          if resp.Some? {
            return;
          }
        }
        frames, received := frames - 1, true;
      }
      resp := None;
    }

    // ----- Commands -----

    /** Linked, but for the command just sent. */
    ghost predicate Sent()
      reads `commandCtr, `unanswered, device
    {
      && commandCtr == device.serial % 256
      && InOrder(device.queue, device.serial)
      && (device.queue != [] ==> device.serial - device.queue[0].serial <= unanswered + 1)
    }

    /** One more command has ended without taking a reply. */
    ghost method CountUnanswered()
      requires Sent()
      modifies this`unanswered
      ensures Linked() && unanswered == if device.queue == [] then 0 else old(unanswered) + 1
    {
      unanswered := if device.queue == [] then 0 else unanswered + 1;
    }

    /** Puts a command on the bus under the next counter. */
    method SendCommand(c: Command) returns (sentCtr: u8, sent: SendResult)
      requires Linked()
      modifies this`commandCtr, this`lastResponse, this`overruns, this`early, device
      ensures Sent() && sentCtr == old(commandCtr) == old(device.serial) % 256
      ensures device.serial == old(device.serial) + 1 && device.fate == device.policy(old(device.serial), c)
      ensures device.slave == old(device.slave) || device.slave == Exec(old(device.slave), c)
      ensures Replied(old(device.queue), device.queue, old(device.serial), sentCtr, c, old(device.slave), device.slave)
      ensures !device.fate.Free? ==>
                sent == Whole && device.slave == AfterFate(device.fate, c, old(device.slave))
                && device.queue == old(device.queue)
                   + RepliesOf(device.fate, sentCtr, c, old(device.slave), old(device.serial))
      ensures overruns == old(overruns) + if unanswered >= 256 then 1 else 0
      ensures early == Counted(old(early), c, old(device.slave.daq), lists)
    {
      hide InOrder, Replied, Exec, HasLists, AllExact, RepliesOf, AfterFate;
      ghost var before, queue, serial := device.slave, device.queue, device.serial;
      overruns := overruns + if unanswered >= 256 then 1 else 0;
      early := Counted(early, c, device.slave.daq, lists);
      sentCtr := commandCtr;
      commandCtr := (commandCtr + 1) % 256;
      lastResponse := None;
      sent := device.Send(sentCtr, c);
      SentInOrder(queue, device.queue, serial, c, before, device.slave);
    }

    /** Waits for the reply, and counts the command as unanswered if none comes. */
    method AwaitReply() returns (reply: Option<bytes>)
      requires Sent()
      modifies this`lastResponse, this`unanswered, device
      ensures Linked() && device.slave == old(device.slave)
      ensures device.serial == old(device.serial) && device.fate == old(device.fate)
      ensures reply.Some? ==> old(device.queue) != [] && reply.value == old(device.queue)[0].data
                              && device.queue == old(device.queue)[1..]
                              && unanswered == if device.queue == [] then 0 else old(unanswered)
      ensures reply.None? ==> device.queue == old(device.queue)
                              && unanswered == if device.queue == [] then 0 else old(unanswered) + 1
      ensures !device.fate.Free? ==> (reply.Some? <==> device.fate.Delivers() && old(device.queue) != [])
    {
      hide InOrder;
      ghost var queue := device.queue;
      reply := WaitResponse();
      if reply.None? {
        CountUnanswered();
      } else {
        TakenInOrder(queue, device.serial);
        unanswered := if device.queue == [] then 0 else unanswered;
      }
    }

    /** The connection state without a response. */
    method LoseConnection()
      requires Core()
      modifies this`connected, this`slaveConnected, this`activePage, this`events
      ensures Core() && !connected && !slaveConnected
      decreases 0, 2
    {
      SetConnectionState(None);
    }

    /** One command and its reply of at least three bytes, or the reason there is none; then the connection is lost. */
    method Exchange(c: Command, useTimeout: int) returns (r: CmdResult, data: bytes, ghost arrived: seq<Reply>)
      requires Core()
      modifies this`commandCtr, this`lastResponse, this`connected, this`slaveConnected, this`activePage
      modifies this`events, this`unanswered, this`overruns, this`early, device
      ensures Core() && (r == OK || r == Timeout || r == SndCmdFailed)
      ensures if r == OK then connected == old(connected) && slaveConnected == old(slaveConnected)
              else !connected && !slaveConnected
      ensures device.serial == old(device.serial) + 1 && device.fate == device.policy(old(device.serial), c)
      ensures device.slave == old(device.slave) || device.slave == Exec(old(device.slave), c)
      ensures Replied(old(device.queue), arrived, old(device.serial), old(commandCtr), c, old(device.slave),
                      device.slave)
      ensures r == OK && useTimeout != 0 ==>
                |data| >= 3 && arrived != [] && arrived[0].data == data && device.queue == arrived[1..]
                && unanswered == (if device.queue == [] then 0 else old(unanswered))
                && (arrived[0].serial == old(device.serial) <==> old(unanswered) == 0)
      ensures unanswered <= old(unanswered) + 1
      ensures r == OK && useTimeout != 0 && data[1] == 0 && data[2] == old(commandCtr) && old(unanswered) < 256 ==>
                old(unanswered) == 0 && device.slave == Exec(old(device.slave), c)
                && Agree(data[3..], Answer(old(device.slave), c))
      ensures overruns == old(overruns) + if old(unanswered) >= 256 then 1 else 0
      ensures early == Counted(old(early), c, old(device.slave.daq), lists)
      ensures !device.fate.Free? ==>
                device.slave == AfterFate(device.fate, c, old(device.slave))
                && arrived == old(device.queue)
                   + RepliesOf(device.fate, old(commandCtr), c, old(device.slave), old(device.serial))
      ensures !device.fate.Free? && useTimeout != 0 ==>
                if device.fate.Delivers() && arrived != [] then |arrived[0].data| >= 3 ==> r == OK
                else r == Timeout && device.queue == arrived
                     && unanswered == if arrived == [] then 0 else old(unanswered) + 1
      decreases 1, 0
    {
      hide InOrder, Replied, Exec, Answer, HasLists, AllExact, Counted, Agree, Announced, Sent, RepliesOf, AfterFate,
           Linked;
      LinkedIs();
      ghost var before, queue := device.slave, device.queue;
      var sentCtr, sent := SendCommand(c);
      arrived := device.queue;
      data := [];
      if sent == Failed {
        CountUnanswered();
        LoseConnection();
        r := Timeout;
        return;
      }
      if sent == Part {
        CountUnanswered();
        LoseConnection();
        r := SndCmdFailed;
        return;
      }
      if useTimeout == 0 {
        CountUnanswered();
        r := OK;
        return;
      }
      var frame := AwaitReply();
      if frame.None? || |frame.value| < 3 {
        LoseConnection();
        r := Timeout;
        return;
      }
      data := frame.value;
      r := OK;
      FirstReply(queue, old(device.serial), old(unanswered), arrived, c, before, device.slave);
    }

    /** What the master makes of a reply. */
    method Decode(c: Command, data: bytes, sentCtr: u8, minLen: nat) returns (r: CmdResult, resp: Option<bytes>)
      requires |data| >= 3
      modifies this`lastError, this`activePage
      ensures r == Verdict(data, sentCtr, minLen) && resp == if r == OK then Some(data) else None
    {
      r := Verdict(data, sentCtr, minLen);
      resp := None;
      if r == OK {
        if c == GetActivePage {
          activePage := Some(data[3..]);
        }
        resp := Some(data);
      } else if data[1] != 0 {
        lastError := r;
      }
    }

    /** A command without a positive answer has failed. */
    ghost method CountFailed(c: Command, answered: bool)
      modifies this`failed, this`unsized
      ensures failed == old(failed) + if answered then 0 else 1
      ensures unsized == old(unsized) + if !answered && c.GetDaqSize? then 1 else 0
    {
      if !answered {
        failed := failed + 1;
        unsized := if c.GetDaqSize? then unsized + 1 else unsized;
      }
    }

    /**
     Sends a command and takes the reply to it. A reply it decodes was the first in the queue; with fewer than 256
     unanswered commands before, it is the reply to this very command.
     */
    method Execute(c: Command, minLen: nat, useTimeout: int)
      returns (r: CmdResult, resp: Option<bytes>, ghost arrived: seq<Reply>)
      requires Core() && minLen >= RES_MIN
      modifies this`commandCtr, this`lastResponse, this`lastError, this`connected, this`slaveConnected, this`activePage
      modifies this`events, this`unanswered, this`overruns, this`early, this`failed, this`unsized, device
      ensures Core() && Grew(old(Spent()))
      ensures if r == Timeout || r == SndCmdFailed then !connected && !slaveConnected
              else connected == old(connected) && slaveConnected == old(slaveConnected)
      ensures device.serial == old(device.serial) + 1 && device.fate == device.policy(old(device.serial), c)
      ensures device.slave == old(device.slave) || device.slave == Exec(old(device.slave), c)
      ensures Replied(old(device.queue), arrived, old(device.serial), old(commandCtr), c, old(device.slave),
                      device.slave)
      ensures resp.Some? ==> r == OK && |resp.value| >= minLen
                             && arrived != [] && arrived[0].data == resp.value && device.queue == arrived[1..]
      ensures resp.Some? && old(unanswered) < 256 ==>
                arrived[0].serial == old(device.serial) && device.slave == Exec(old(device.slave), c)
                && Agree(resp.value[3..], Answer(old(device.slave), c))
      ensures resp.Some? ==> old(unanswered) == 0 || old(unanswered) >= 256
      ensures useTimeout != 0 && r != Timeout && r != SndCmdFailed ==>
                && arrived != [] && |arrived[0].data| >= 3 && device.queue == arrived[1..]
                && r == Verdict(arrived[0].data, old(commandCtr), minLen)
                && unanswered == (if device.queue == [] then 0 else old(unanswered))
                && (arrived[0].serial == old(device.serial) <==> old(unanswered) == 0)
      ensures if useTimeout == 0 then resp.None? else r == OK <==> resp.Some?
      ensures failed == old(failed) + if resp.Some? then 0 else 1
      ensures unsized == old(unsized) + if resp.None? && c.GetDaqSize? then 1 else 0
      ensures overruns == old(overruns) + if old(unanswered) >= 256 then 1 else 0
      ensures early == Counted(old(early), c, old(device.slave.daq), lists)
      ensures !device.fate.Free? ==>
                device.slave == AfterFate(device.fate, c, old(device.slave))
                && arrived == old(device.queue)
                   + RepliesOf(device.fate, old(commandCtr), c, old(device.slave), old(device.serial))
      ensures !device.fate.Free? && useTimeout != 0 ==>
                if device.fate.Delivers() && arrived != []
                then |arrived[0].data| >= 3 ==> r == Verdict(arrived[0].data, old(commandCtr), minLen)
                else r == Timeout && device.queue == arrived
                     && unanswered == if arrived == [] then 0 else old(unanswered) + 1
      decreases 1, 1
    {
      hide InOrder, Exec, Answer, HasLists, AllExact, Counted, Agree, Announced, Linked, Replied, RepliesOf, AfterFate,
           Fated, Core, Verdict;
      var sentCtr, data := commandCtr, [];
      resp := None;
      r, data, arrived := Exchange(c, useTimeout);
      if r == OK && useTimeout != 0 {
        r, resp := Decode(c, data, sentCtr, minLen);
      }
      CountFailed(c, resp.Some?);
    }

    /** A command, its effect and what its reply carries, for a caller that does not look at the queue. */
    method Ask(c: Command, minLen: nat, useTimeout: int) returns (r: CmdResult, resp: Option<bytes>)
      requires Core() && RES_MIN <= minLen <= 8
      modifies this`commandCtr, this`lastResponse, this`lastError, this`connected, this`slaveConnected, this`activePage
      modifies this`events, this`unanswered, this`overruns, this`early, this`failed, this`unsized, device
      ensures Core() && Grew(old(Spent())) && Kept(old(connected), old(slaveConnected))
      ensures r == OK ==> Same(old(connected), old(slaveConnected))
      ensures Took(resp.Some? && (overruns == old(overruns) || Prompt(old(device.queue))),
                   old(device.slave), device.slave, c)
      ensures resp.Some? ==> r == OK && |resp.value| >= minLen
      ensures resp.Some? && overruns == old(overruns) ==> Agree(resp.value[3..], Answer(old(device.slave), c))
      ensures resp.Some? ==> old(unanswered) == 0 || old(unanswered) >= 256
      ensures if useTimeout == 0 then resp.None? else r == OK <==> resp.Some?
      ensures failed == old(failed) + if resp.Some? then 0 else 1
      ensures unsized == old(unsized) + if resp.None? && c.GetDaqSize? then 1 else 0
      ensures device.serial == old(device.serial) + 1
      ensures early == Counted(old(early), c, old(device.slave.daq), lists) && (!c.IsStart() ==> early == old(early))
      ensures !c.Stores() ==> device.slave.mem == old(device.slave.mem)
      ensures !c.ChangesLists() ==> device.slave.daq == old(device.slave.daq)
      ensures useTimeout != 0 && !c.GetDaqSize? && Prompt(old(device.queue)) ==> r == OK && Idle(old(overruns))
      ensures useTimeout != 0 && c.GetDaqSize? && Prompt(old(device.queue)) ==>
                && Idle(old(overruns)) && (Responsive(device.policy) ==> Same(old(connected), old(slaveConnected)))
                && (Deaf(device.policy) ==>
                      r != OK && device.slave == old(device.slave) && (Lossy(device.policy) ==> !connected))
      decreases 1, 2
    {
      hide Linked, Announced, Exec, Answer, Agree, HasLists, AllExact, InOrder, Replied, RepliesOf, AfterFate, Verdict;
      NotCounted(early, c, device.slave.daq, lists);
      hide Counted;
      ghost var serial, arrived := device.serial, [];
      ExecKeeps(device.slave, c);
      LinkedIs();
      r, resp, arrived := Execute(c, minLen, useTimeout);
      if old(device.queue) == [] && useTimeout != 0 {
        FateIs(device.fate, old(commandCtr), c, old(device.slave), device.slave, serial, minLen, arrived, device.queue,
               r);
      }
    }

    /** A command whose reply carries nothing the master uses. */
    method Run(c: Command, minLen: nat) returns (r: CmdResult)
      requires Core() && RES_MIN <= minLen <= 8
      modifies this`commandCtr, this`lastResponse, this`lastError, this`connected, this`slaveConnected, this`activePage
      modifies this`events, this`unanswered, this`overruns, this`early, this`failed, this`unsized, device
      ensures Core() && Grew(old(Spent())) && Kept(old(connected), old(slaveConnected))
      ensures Took(r == OK && (overruns == old(overruns) || Prompt(old(device.queue))),
                   old(device.slave), device.slave, c)
      ensures early == Counted(old(early), c, old(device.slave.daq), lists) && (!c.IsStart() ==> early == old(early))
      ensures device.serial == old(device.serial) + 1
      ensures !c.Stores() ==> device.slave.mem == old(device.slave.mem)
      ensures !c.ChangesLists() ==> device.slave.daq == old(device.slave.daq)
      ensures failed == old(failed) + if r == OK then 0 else 1
      ensures r == OK ==> Same(old(connected), old(slaveConnected))
      ensures !c.GetDaqSize? && Prompt(old(device.queue)) ==>
                r == OK && Idle(old(overruns)) && Same(old(connected), old(slaveConnected))
      decreases 2, 0
    {
      hide Counted, Linked, Announced, Exec, Answer, Agree, HasLists;
      var resp: Option<bytes>;
      r, resp := Ask(c, minLen, -1);
    }

    method SetMta(number: nat, loc: Loc) returns (r: CmdResult)
      requires Core()
      modifies this`commandCtr, this`lastResponse, this`lastError, this`connected, this`slaveConnected, this`activePage
      modifies this`events, this`unanswered, this`overruns, this`early, this`failed, this`unsized, device
      ensures Core() && Grew(old(Spent())) && Kept(old(connected), old(slaveConnected))
      ensures Took(r == OK && (overruns == old(overruns) || Prompt(old(device.queue))),
                   old(device.slave), device.slave, Command.SetMta(number, loc))
      ensures early == old(early)
      ensures failed == old(failed) + if r == OK then 0 else 1
      ensures r == OK ==> Same(old(connected), old(slaveConnected))
      ensures Prompt(old(device.queue)) ==> r == OK && Idle(old(overruns)) && Same(old(connected), old(slaveConnected))
      decreases 2, 1
    {
      r := Run(Command.SetMta(number, loc), RES_MIN);
    }

    method UploadChunk(size: u8) returns (r: CmdResult, data: bytes)
      requires Core()
      modifies this`commandCtr, this`lastResponse, this`lastError, this`connected, this`slaveConnected, this`activePage
      modifies this`events, this`unanswered, this`overruns, this`early, this`failed, this`unsized, device
      ensures Core() && Grew(old(Spent())) && Kept(old(connected), old(slaveConnected))
      ensures Took(r == OK && (overruns == old(overruns) || Prompt(old(device.queue))),
                   old(device.slave), device.slave, Upload(size))
      ensures early == old(early)
      ensures r == OK ==>
                && |data| <= size
                && (overruns == old(overruns) ==> Agree(data, Read(old(device.slave.mem), old(device.slave.mta), size)))
      ensures failed == old(failed) + if r == OK then 0 else 1
      ensures r == OK ==> Same(old(connected), old(slaveConnected))
      ensures Prompt(old(device.queue)) ==> r == OK && Idle(old(overruns)) && Same(old(connected), old(slaveConnected))
      decreases 2, 1
    {
      hide Linked, Announced, HasLists, AllExact, Willing, Deaf, Lossy, Responsive;
      var resp;
      r, resp := Ask(Upload(size), RES_MIN, -1);
      data := if resp.Some? then resp.value[3..] else [];
      if r == OK && |data| > size {
        data := data[..size];
      }
    }

    /** The bytes of the reply as they come, be they more or fewer than asked for. */
    method ShortUpload(size: u8, loc: Loc) returns (r: CmdResult, data: bytes)
      requires Core()
      modifies this`commandCtr, this`lastResponse, this`lastError, this`connected, this`slaveConnected, this`activePage
      modifies this`events, this`unanswered, this`overruns, this`early, this`failed, this`unsized, device
      ensures Core() && Grew(old(Spent())) && Kept(old(connected), old(slaveConnected))
      ensures Took(r == OK && (overruns == old(overruns) || Prompt(old(device.queue))),
                   old(device.slave), device.slave, ShortUp(size, loc))
      ensures early == old(early)
      ensures r == OK && overruns == old(overruns) ==> Agree(data, Read(old(device.slave.mem), loc, size))
      ensures failed == old(failed) + if r == OK then 0 else 1
      ensures r == OK ==> Same(old(connected), old(slaveConnected))
      ensures Prompt(old(device.queue)) ==> r == OK && Idle(old(overruns)) && Same(old(connected), old(slaveConnected))
      decreases 2, 1
    {
      hide Linked, Announced, HasLists, AllExact, Willing, Deaf, Lossy, Responsive;
      var resp;
      r, resp := Ask(ShortUp(size, loc), RES_MIN, -1);
      data := if resp.Some? then resp.value[3..] else [];
    }

    method Download(data: bytes, prog: bool) returns (r: CmdResult)
      requires Core()
      modifies this`commandCtr, this`lastResponse, this`lastError, this`connected, this`slaveConnected, this`activePage
      modifies this`events, this`unanswered, this`overruns, this`early, this`failed, this`unsized, device
      ensures Core() && Grew(old(Spent())) && Kept(old(connected), old(slaveConnected))
      ensures |data| > 5 ==> r == InvalidArgument && device.slave == old(device.slave)
      ensures |data| <= 5 ==> (device.slave == old(device.slave) || device.slave == Stored(old(device.slave), data))
      ensures |data| <= 5 ==> (r != OK <==> failed > old(failed))
      ensures |data| <= 5 && r == OK && overruns == old(overruns) ==> device.slave == Stored(old(device.slave), data)
      ensures early == old(early) && device.slave.daq == old(device.slave.daq)
      ensures |data| <= 5 ==> device.serial == old(device.serial) + 1
      decreases 2, 1
    {
      if |data| > 5 {
        return InvalidArgument;
      }
      hide Linked, Announced, Exec, Stored;
      ExecKeeps(device.slave, if prog then Program(data) else Dnload(data));
      r := Run(if prog then Program(data) else Dnload(data), 8);
    }

    method DownloadSix(data: bytes, prog: bool) returns (r: CmdResult)
      requires Core()
      modifies this`commandCtr, this`lastResponse, this`lastError, this`connected, this`slaveConnected, this`activePage
      modifies this`events, this`unanswered, this`overruns, this`early, this`failed, this`unsized, device
      ensures Core() && Grew(old(Spent())) && Kept(old(connected), old(slaveConnected))
      ensures |data| != 6 ==> r == InvalidArgument && device.slave == old(device.slave)
      ensures |data| == 6 ==> (device.slave == old(device.slave) || device.slave == Stored(old(device.slave), data))
      ensures |data| == 6 ==> (r != OK <==> failed > old(failed))
      ensures |data| == 6 && r == OK && overruns == old(overruns) ==> device.slave == Stored(old(device.slave), data)
      ensures early == old(early) && device.slave.daq == old(device.slave.daq)
      ensures |data| == 6 ==> device.serial == old(device.serial) + 1
      decreases 2, 1
    {
      if |data| != 6 {
        return InvalidArgument;
      }
      hide Linked, Announced, Exec, Stored;
      ExecKeeps(device.slave, if prog then Program6(data) else Dnload6(data));
      r := Run(if prog then Program6(data) else Dnload6(data), 8);
    }

    method ListSize(list: u8) returns (r: CmdResult, length: u8, firstPid: u8)
      requires Core()
      modifies this`commandCtr, this`lastResponse, this`lastError, this`connected, this`slaveConnected, this`activePage
      modifies this`events, this`unanswered, this`overruns, this`early, this`failed, this`unsized, device
      ensures Core() && Grew(old(Spent())) && Kept(old(connected), old(slaveConnected))
      ensures Took(r == OK && (overruns == old(overruns) || Prompt(old(device.queue))),
                   old(device.slave), device.slave, GetDaqSize(list))
      ensures early == old(early)
      ensures r == OK && overruns == old(overruns) ==>
                Agree([length, firstPid], Answer(old(device.slave), GetDaqSize(list)))
      ensures failed == old(failed) + if r == OK then 0 else 1
      ensures unsized == old(unsized) + if r == OK then 0 else 1
      ensures r == OK ==> Same(old(connected), old(slaveConnected))
      ensures Prompt(old(device.queue)) ==>
                && Idle(old(overruns)) && (Responsive(device.policy) ==> Same(old(connected), old(slaveConnected)))
                && (Deaf(device.policy) ==>
                      r != OK && device.slave == old(device.slave) && (Lossy(device.policy) ==> !connected))
      decreases 2, 1
    {
      hide Linked, Announced, HasLists, AllExact, Willing, Deaf, Lossy, Responsive, Exec, Answer;
      var resp;
      r, resp := Ask(GetDaqSize(list), 5, -1);
      length, firstPid := if resp.Some? then resp.value[3] else 0, if resp.Some? then resp.value[4] else 0;
    }

    method StartStopList(mode: StartMode, list: nat) returns (r: CmdResult)
      requires Core()
      modifies this`commandCtr, this`lastResponse, this`lastError, this`connected, this`slaveConnected, this`activePage
      modifies this`events, this`unanswered, this`overruns, this`early, this`failed, this`unsized, device
      ensures Core() && Grew(old(Spent())) && Kept(old(connected), old(slaveConnected))
      ensures device.slave.daq == old(device.slave.daq) && device.slave.mem == old(device.slave.mem)
      ensures r == OK && overruns == old(overruns) ==>
                match mode
                case Start => device.slave.running == old(device.slave.running) + {list}
                case Select => device.slave.prepared == old(device.slave.prepared) + {list}
                case Stop => device.slave.running == old(device.slave.running) - {list}
      ensures r != OK <==> failed > old(failed)
      ensures early == Counted(old(early), StartStop(mode, list), old(device.slave.daq), lists)
      ensures r == OK ==> Same(old(connected), old(slaveConnected))
      ensures Prompt(old(device.queue)) ==> r == OK && Idle(old(overruns)) && Same(old(connected), old(slaveConnected))
      decreases 2, 1
    {
      hide Linked, Announced, HasLists, AllExact, Willing, Deaf, Lossy, Responsive;
      r := Run(StartStop(mode, list), RES_MIN);
    }

    method StartStopEveryList(mode: StartMode) returns (r: CmdResult)
      requires Core()
      modifies this`commandCtr, this`lastResponse, this`lastError, this`connected, this`slaveConnected, this`activePage
      modifies this`events, this`unanswered, this`overruns, this`early, this`failed, this`unsized, device
      ensures Core() && Grew(old(Spent())) && Kept(old(connected), old(slaveConnected))
      ensures mode == Select ==> r == InvalidArgument && device.slave == old(device.slave) && failed == old(failed)
      ensures device.slave.daq == old(device.slave.daq) && device.slave.mem == old(device.slave.mem)
      ensures r == OK && overruns == old(overruns) ==>
                if mode == Start then device.slave.running == old(device.slave.running + device.slave.prepared)
                else device.slave.running == {}
      ensures mode != Select ==> (r != OK <==> failed > old(failed))
      ensures early == if mode == Select then old(early)
              else Counted(old(early), StartStopAll(mode), old(device.slave.daq), lists)
      ensures mode != Select && Prompt(old(device.queue)) ==>
                r == OK && Idle(old(overruns)) && Same(old(connected), old(slaveConnected))
      ensures r == OK ==> Same(old(connected), old(slaveConnected))
      decreases 2, 1
    {
      hide Linked, Announced, HasLists, AllExact, Willing, Deaf, Lossy, Responsive;
      if mode == Select {
        return InvalidArgument;
      }
      r := Run(StartStopAll(mode), RES_MIN);
    }

    // ----- Transfers -----

    method UploadLoop(len: nat, progress: bool) returns (r: CmdResult, data: bytes, cancelled: bool)
      requires Core()
      modifies this`commandCtr, this`lastResponse, this`lastError, this`connected, this`slaveConnected, this`activePage
      modifies this`events, this`unanswered, this`overruns, this`early, this`failed, this`unsized, device
      ensures Core() && Grew(old(Spent())) && Kept(old(connected), old(slaveConnected))
      ensures device.slave.mem == old(device.slave.mem) && device.slave.daq == old(device.slave.daq)
      ensures early == old(early)
      ensures |data| <= len && (r != OK <==> failed > old(failed)) && (cancelled ==> progress)
      ensures r == OK && !cancelled && |data| == len && overruns == old(overruns) ==>
                data == Read(old(device.slave.mem), old(device.slave.mta), len)
      decreases 2, 3
    {
      hide Linked, Announced, HasLists, AllExact, Willing, Deaf, Lossy, Responsive;
      ghost var slave := device.slave;
      r, data, cancelled := OK, [], false;
      var step := if len / 1024 > 1 then len / 1024 else 1;
      var next, done, remaining := step, 0, len;
      while remaining > 0
        invariant Core() && Grew(old(Spent())) && Kept(old(connected), old(slaveConnected)) && early == old(early)
        invariant device.slave.mem == slave.mem && device.slave.daq == slave.daq
        invariant remaining >= 0 && done + remaining == len && |data| <= done && r == OK && failed == old(failed)
        invariant overruns == old(overruns) ==> device.slave.mta == slave.mta.Plus(done)
        invariant |data| == done && overruns == old(overruns) ==> data == Read(slave.mem, slave.mta, done)
      {
        var b := if remaining > 5 then 5 else remaining;
        var chunk;
        r, chunk := UploadChunk(b);
        if r != OK {
          break;
        }
        AppendChunk(slave.mem, slave.mta, done, data, b, chunk);
        data := data + chunk;
        remaining := remaining - b;
        done := done + b;
        if progress && done > next {
          cancelled := *;
          if cancelled {
            return;
          }
          next := next + step;
        }
      }
    }

    /** Reads memory. Data of the length asked for is the memory, byte for byte; shorter data has lost some of it. */
    method ReadSync(len: nat, extension: nat, address: u32, progress: bool) returns (data: Option<bytes>)
      requires Core()
      modifies this`commandCtr, this`lastResponse, this`lastError, this`connected, this`slaveConnected, this`activePage
      modifies this`events, this`unanswered, this`overruns, this`early, this`failed, this`unsized, device
      ensures Core() && Grew(old(Spent())) && Kept(old(connected), old(slaveConnected))
      ensures device.slave.mem == old(device.slave.mem) && device.slave.daq == old(device.slave.daq)
      ensures early == old(early)
      ensures !old(slaveConnected) ==> data == None && device.slave == old(device.slave)
      ensures if data.Some? then failed == old(failed) else !old(slaveConnected) || progress || failed > old(failed)
      ensures data.Some? && !(address != NO_ADDRESS && len <= 5 && IsAllowed(OptShortUp)) ==> |data.value| <= len
      ensures data.Some? && |data.value| == len && old(unanswered) < 256
          ==> data.value == Read(old(device.slave.mem),
                                 if address == NO_ADDRESS then old(device.slave.mta) else Loc(extension, address), len)
      decreases 3
    {
      hide Linked, Announced, HasLists, AllExact, Willing, Deaf, Lossy, Responsive;
      if !slaveConnected {
        return None;
      }
      var r, read, cancelled := OK, [], false;
      if address != NO_ADDRESS && len <= 5 && IsAllowed(OptShortUp) {
        r, read := ShortUpload(len, Loc(extension, address));
      } else {
        if address != NO_ADDRESS {
          r := SetMta(0, Loc(extension, address));
        }
        if r == OK {
          r, read, cancelled := UploadLoop(len, progress);
          if cancelled {
            return None;
          }
        }
      }
      data := if r == OK then Some(read) else None;
    }

    /** Six bytes go by the commands made for six. */
    method SendChunk(chunk: bytes, prog: bool) returns (r: CmdResult)
      requires Core() && |chunk| <= 6
      modifies this`commandCtr, this`lastResponse, this`lastError, this`connected, this`slaveConnected, this`activePage
      modifies this`events, this`unanswered, this`overruns, this`early, this`failed, this`unsized, device
      ensures Core() && Grew(old(Spent())) && Kept(old(connected), old(slaveConnected))
      ensures early == old(early) && device.slave.daq == old(device.slave.daq)
      ensures device.slave == old(device.slave) || device.slave == Stored(old(device.slave), chunk)
      ensures r != OK <==> failed > old(failed)
      ensures r == OK && overruns == old(overruns) ==> device.slave == Stored(old(device.slave), chunk)
      ensures device.serial == old(device.serial) + 1
      decreases 2, 2
    {
      hide Linked, Announced, Stored;
      if |chunk| != 6 {
        r := Download(chunk, prog);
      } else {
        r := DownloadSix(chunk, prog);
      }
    }

    /** The size of the chunks: six if the command made for six is allowed. */
    function ChunkSize(prog: bool): (n: nat)
      ensures n == 5 || n == 6
    {
      if IsAllowed(if prog then OptProgram6 else OptDnload6) then 6 else 5
    }

    /** How much of the data `n` chunks cover. */
    function Covered(data: bytes, prog: bool, n: nat): (k: nat)
      ensures k <= |data|
    {
      var all := if ChunkSize(prog) == 6 then 6 * n else 5 * n;
      if all < |data| then all else |data|
    }

    lemma CoveredNothing(data: bytes, prog: bool)
      ensures Covered(data, prog, 0) == 0
    {
    }

    lemma CoveredMore(data: bytes, prog: bool, n: nat, done: nat, more: nat)
      requires done == Covered(data, prog, n) && done < |data|
      requires more == if ChunkSize(prog) < |data| - done then ChunkSize(prog) else |data| - done
      ensures Covered(data, prog, n + 1) == done + more
    {
    }

    /**
     Stores chunk after chunk, one command each. If a command fails, the chunks before it are stored, and perhaps its
     own.
     */
    method WriteLoop(data: bytes, prog: bool, progress: bool) returns (r: CmdResult, cancelled: bool, ghost k: nat)
      requires Core()
      modifies this`commandCtr, this`lastResponse, this`lastError, this`connected, this`slaveConnected, this`activePage
      modifies this`events, this`unanswered, this`overruns, this`early, this`failed, this`unsized, device
      ensures Core() && Grew(old(Spent())) && Kept(old(connected), old(slaveConnected))
      ensures early == old(early) && device.slave.daq == old(device.slave.daq)
      ensures (r != OK <==> failed > old(failed)) && (cancelled ==> progress)
      ensures k <= |data| && (overruns == old(overruns) ==> device.slave == Stored(old(device.slave), data[..k]))
      ensures device.serial >= old(device.serial)
      ensures var n := device.serial - old(device.serial);
              if r == OK then k == Covered(data, prog, n)
              else n > 0 && (k == Covered(data, prog, n) || k == Covered(data, prog, n - 1))
      ensures r == OK && !cancelled && overruns == old(overruns) ==> device.slave == Stored(old(device.slave), data)
      decreases 2, 3
    {
      hide Linked, Announced, HasLists, AllExact, Willing, Deaf, Lossy, Responsive, Stored, Exec, Covered;
      assert Covered(data, prog, 0) == 0 by {
        CoveredNothing(data, prog);
      }
      ghost var slave := device.slave;
      r, cancelled := OK, false;
      var size := ChunkSize(prog);
      var next := if |data| / 100 > 1 then |data| / 100 else 1;
      var done := 0;
      k := 0;
      StoredNothing(slave);
      while done < |data|
        invariant Core() && Grew(old(Spent())) && Kept(old(connected), old(slaveConnected)) && early == old(early)
        invariant device.slave.daq == slave.daq && done <= |data| && r == OK && k == done
                  && device.serial >= old(device.serial)
        invariant done == Covered(data, prog, device.serial - old(device.serial)) && failed == old(failed)
        invariant overruns == old(overruns) ==> device.slave == Stored(slave, data[..done])
      {
        var n := if size < |data| - done then size else |data| - done;
        var chunk := data[done..done + n];
        r := SendChunk(chunk, prog);
        StoredChunk(slave, data, done, n);
        CoveredMore(data, prog, device.serial - old(device.serial) - 1, done, n);
        if overruns == old(overruns) && device.slave == Stored(slave, data[..done + n]) {
          k := done + n;
        }
        if r != OK {
          break;
        }
        done := done + n;
        k := done;
        if progress && done > next {
          cancelled := *;
          if cancelled {
            return;
          }
          next := next + if |data| / 1000 > 1 then |data| / 1000 else 1;
        }
      }
      assert data[..|data|] == data;
    }

    /** The page the slave last said was active; flash if it has not said. */
    predicate ActivePageIsRam()
      reads `activePage
    {
      activePage.Some? && pageIsRam(activePage.value)
    }

    /** Writes memory: all of the data on success, a prefix of it otherwise, and nothing else. */
    method WriteSync(extension: nat, address: u32, data: bytes, prog: bool, progress: bool) returns (ok: bool)
      requires Core()
      modifies this`commandCtr, this`lastResponse, this`lastError, this`connected, this`slaveConnected, this`activePage
      modifies this`events, this`unanswered, this`overruns, this`early, this`failed, this`unsized, device
      ensures Core() && Grew(old(Spent())) && Kept(old(connected), old(slaveConnected))
      ensures early == old(early) && device.slave.daq == old(device.slave.daq)
      ensures !old(slaveConnected) || (!prog && !old(ActivePageIsRam())) ==> !ok && device.slave == old(device.slave)
      ensures if ok then failed == old(failed)
              else !old(slaveConnected) || (!prog && !old(ActivePageIsRam())) || progress || failed > old(failed)
      ensures var from := if address == NO_ADDRESS then old(device.slave.mta) else Loc(extension, address);
              && (ok && old(unanswered) < 256 ==> device.slave.mem == Store(old(device.slave.mem), from, data))
              && (overruns == old(overruns) ==>
                    exists k :: 0 <= k <= |data| && device.slave.mem == Store(old(device.slave.mem), from, data[..k]))
      decreases 3
    {
      hide Linked, Announced, HasLists, AllExact, Willing, Deaf, Lossy, Responsive, Store;
      ghost var slave := device.slave;
      ghost var from := if address == NO_ADDRESS then slave.mta else Loc(extension, address);
      StoreNothing(slave.mem, from, data);
      if !slaveConnected {
        return false;
      }
      if !prog && !ActivePageIsRam() {
        return false;
      }
      var r: CmdResult;
      if address == NO_ADDRESS && |data| <= 5 {
        r := Download(data, prog);
        assert data[..|data|] == data;
        return r == OK;
      }
      if address != NO_ADDRESS {
        r := SetMta(0, Loc(extension, address));
        if r != OK {
          return false;
        }
      }
      var cancelled;
      ghost var k;
      r, cancelled, k := WriteLoop(data, prog, progress);
      ok := r == OK && !cancelled;
    }

    /** What was written reads back, when the slave supplies every byte. */
    method WriteAndRead(extension: nat, address: u32, data: bytes, prog: bool) returns (ok: bool, read: Option<bytes>)
      requires Core() && address != NO_ADDRESS
      modifies this`commandCtr, this`lastResponse, this`lastError, this`connected, this`slaveConnected, this`activePage
      modifies this`events, this`unanswered, this`overruns, this`early, this`failed, this`unsized, device
      ensures Core() && Grew(old(Spent())) && Kept(old(connected), old(slaveConnected))
      ensures ok && read.Some? && |read.value| == |data| && old(unanswered) < 256 ==> read.value == data
      decreases 3
    {
      hide Linked, Announced, HasLists, AllExact, Willing, Deaf, Lossy, Responsive, Store, Read;
      ok := WriteSync(extension, address, data, prog, false);
      ReadStored(old(device.slave.mem), Loc(extension, address), data);
      read := ReadSync(|data|, extension, address, false);
    }

    method StatusByte() returns (r: CmdResult, state: u8)
      requires Core()
      modifies this`commandCtr, this`lastResponse, this`lastError, this`connected, this`slaveConnected, this`activePage
      modifies this`events, this`unanswered, this`overruns, this`early, this`failed, this`unsized, device
      ensures Core() && Grew(old(Spent())) && Kept(old(connected), old(slaveConnected))
      ensures device.slave == old(device.slave) && early == old(early)
      ensures failed == old(failed) + if r == OK then 0 else 1
      ensures r == OK ==> Same(old(connected), old(slaveConnected))
      ensures Prompt(old(device.queue)) ==> r == OK && Idle(old(overruns)) && Same(old(connected), old(slaveConnected))
      decreases 2, 1
    {
      hide Linked, Announced, HasLists, AllExact, Willing, Deaf, Lossy, Responsive;
      var resp;
      r, resp := Ask(GetStatus, 5, -1);
      state := if resp.Some? then resp.value[3] else 0;
    }

    // ----- Lists -----

    /** Asks for the size of one list, which empties it if it hears the question. */
    method AskSize(i: nat, apply: bool) returns (ghost emptied: bool, ghost answered: bool)
      requires Core() && i < |rasters| && rasters[i].qp.Some?
      modifies this`commandCtr, this`lastResponse, this`lastError, this`connected, this`slaveConnected, this`activePage
      modifies this`events, this`unanswered, this`overruns, this`early, this`failed, this`unsized, this`rasters, device
      ensures Core() && Grew(old(Spent())) && Kept(old(connected), old(slaveConnected))
      ensures device.slave.mem == old(device.slave.mem) && early == old(early)
      ensures var n := old(rasters[i].qp.value.daqNo) % 256;
              device.slave.daq == if emptied then Clear(old(device.slave.daq), n) else old(device.slave.daq)
      ensures overruns == old(overruns) && answered ==> emptied
      ensures if answered then unsized == old(unsized) else unsized > old(unsized)
      ensures Narrowed(old(rasters), rasters) && (!apply ==> rasters == old(rasters))
      ensures Prompt(old(device.queue)) ==>
                && Idle(old(overruns)) && (Responsive(device.policy) ==> Same(old(connected), old(slaveConnected)))
                && (Deaf(device.policy) ==> !emptied && (Lossy(device.policy) ==> !connected))
      decreases 2, 2
    {
      hide Linked, Announced, HasLists, AllExact, Willing, Deaf, Lossy, Responsive, Counted, Exec, Answer, Agree, Clear,
           InOrder;
      ghost var before := device.slave;
      var qp := rasters[i].qp.value;
      var r, length, firstPid := ListSize(qp.daqNo % 256);
      SizeAsked(before, device.slave, qp.daqNo % 256);
      emptied := device.slave == Exec(before, GetDaqSize(qp.daqNo % 256))
        && !(Deaf(device.policy) && Prompt(old(device.queue)));
      answered := r == OK;
      if r == OK && apply {
        var shorter := if qp.length < length then qp.length else length;
        rasters := rasters[i := rasters[i].(qp := Some(Qp(qp.daqNo, shorter, firstPid)))];
      }
    }

    /** Asks for the sizes of some lists. A list that hears the question is emptied, one that answers has heard it. */
    method UpdateDaqSizes(apply: bool, daqNo: nat) returns (ghost cleared: bool, ghost heard: bool)
      requires Core()
      modifies this`commandCtr, this`lastResponse, this`lastError, this`connected, this`slaveConnected, this`activePage
      modifies this`events, this`unanswered, this`overruns, this`early, this`failed, this`unsized, this`rasters, device
      ensures Core() && Grew(old(Spent())) && Kept(old(connected), old(slaveConnected))
      ensures device.slave.mem == old(device.slave.mem) && early == old(early)
      ensures daqNo < 256 ==>
                device.slave.daq == if cleared then Clear(old(device.slave.daq), daqNo) else old(device.slave.daq)
      ensures overruns == old(overruns) && heard ==> cleared
      ensures unsized == old(unsized) && HasSource(old(rasters), daqNo) ==> heard
      ensures Narrowed(old(rasters), rasters) && (!apply ==> rasters == old(rasters))
      ensures Prompt(old(device.queue)) ==>
                && Idle(old(overruns)) && (Responsive(device.policy) ==> Same(old(connected), old(slaveConnected)))
                && (Deaf(device.policy) ==>
                      !cleared && (Lossy(device.policy) && HasSource(old(rasters), daqNo) ==> !connected))
      decreases 3
    {
      hide Linked, Announced, HasLists, AllExact, Willing, Deaf, Lossy, Responsive, Counted, Exec, Answer, Agree, Clear,
           InOrder, HasSource, FitBytes;
      ghost var slave := device.slave;
      cleared, heard := false, false;
      NoSource(old(rasters)[..0], daqNo);
      for i := 0 to |rasters|
        invariant Core() && Grew(old(Spent())) && Kept(old(connected), old(slaveConnected)) && early == old(early)
        invariant device.slave.mem == slave.mem && Narrowed(old(rasters), rasters)
        invariant daqNo < 256 ==> device.slave.daq == if cleared then Clear(slave.daq, daqNo) else slave.daq
        invariant overruns == old(overruns) && heard ==> cleared
        invariant unsized == old(unsized) && HasSource(old(rasters)[..i], daqNo) ==> heard
        invariant !apply ==> rasters == old(rasters)
        invariant Prompt(old(device.queue)) ==>
                    && Idle(old(overruns)) && (Responsive(device.policy) ==> Same(old(connected), old(slaveConnected)))
                    && (Deaf(device.policy) ==>
                          !cleared && (Lossy(device.policy) && HasSource(old(rasters)[..i], daqNo) ==> !connected))
      {
        var qp := rasters[i].qp;
        SourceUpTo(old(rasters), i, daqNo);
        if qp.None? {
          continue;
        }
        if !(daqNo == ALL_LISTS || daqNo == qp.value.daqNo) {
          continue;
        }
        ghost var emptied, answered := AskSize(i, apply);
        cleared := cleared || emptied;
        heard := heard || answered;
        ClearTwice(slave.daq, daqNo);
      }
      assert old(rasters)[..|old(rasters)|] == old(rasters);
    }

    method WriteElement(list: DaqList, b: nat, n: nat) returns (ok: bool)
      requires Core() && InTable(list, Slot(list.number, b, n)) && list.number < 256 && b < 256 && n < 256
      modifies this`commandCtr, this`lastResponse, this`lastError, this`connected, this`slaveConnected, this`activePage
      modifies this`events, this`unanswered, this`overruns, this`early, this`failed, this`unsized, device
      ensures Core() && Grew(old(Spent())) && Kept(old(connected), old(slaveConnected))
      ensures early == old(early)
      ensures overruns == old(overruns) ==>
                var written := old(device.slave.daq)[Slot(list.number, b, n) := list.odts[b][n]];
              (device.slave.daq == old(device.slave.daq) || device.slave.daq == written)
                && (ok ==> device.slave.daq == written)
      ensures !ok ==> failed > old(failed)
      ensures Prompt(old(device.queue)) ==> ok && Idle(old(overruns)) && Same(old(connected), old(slaveConnected))
      decreases 3
    {
      hide Linked, Announced, HasLists, AllExact, Willing, Deaf, Lossy, Responsive, Answer, Agree, Counted, InOrder;
      var r := Run(SetDaqPtr(Slot(list.number % 256, b % 256, n % 256)), RES_MIN);
      if r != OK {
        return false;
      }
      r := Run(WriteDaq(list.odts[b][n]), RES_MIN);
      ok := r == OK;
    }

    /** Writes every element of a list; on failure, some of them. */
    method WriteDaqList(list: DaqList) returns (ok: bool)
      requires Core() && FitByte(list)
      modifies this`commandCtr, this`lastResponse, this`lastError, this`connected, this`slaveConnected, this`activePage
      modifies this`events, this`unanswered, this`overruns, this`early, this`failed, this`unsized, device
      ensures Core() && Grew(old(Spent())) && Kept(old(connected), old(slaveConnected))
      ensures early == old(early)
      ensures overruns == old(overruns) ==>
                Written(old(device.slave.daq), device.slave.daq, list, 0, 0) && (ok ==> HasList(device.slave.daq, list))
      ensures !ok ==> failed > old(failed)
      ensures Prompt(old(device.queue)) ==> ok && Idle(old(overruns)) && Same(old(connected), old(slaveConnected))
      decreases 3
    {
      hide Linked, Announced, HasLists, AllExact, Willing, Deaf, Lossy, Responsive, HasList, Written;
      ghost var daq := device.slave.daq;
      WrittenNothing(daq, list);
      for b := 0 to |list.odts|
        invariant Core() && Grew(old(Spent())) && Kept(old(connected), old(slaveConnected)) && early == old(early)
        invariant overruns == old(overruns) ==> Written(daq, device.slave.daq, list, b, 0)
        invariant Prompt(old(device.queue)) ==> Idle(old(overruns)) && Same(old(connected), old(slaveConnected))
      {
        for n := 0 to |list.odts[b]|
          invariant Core() && Grew(old(Spent())) && Kept(old(connected), old(slaveConnected)) && early == old(early)
          invariant overruns == old(overruns) ==> Written(daq, device.slave.daq, list, b, n)
          invariant Prompt(old(device.queue)) ==> Idle(old(overruns)) && Same(old(connected), old(slaveConnected))
        {
          ghost var before := device.slave.daq;
          ok := WriteElement(list, b, n);
          if overruns == old(overruns) {
            WrittenOne(daq, before, list, b, n);
          }
          if !ok {
            if overruns == old(overruns) {
              WrittenLess(daq, device.slave.daq, list, b, n);
            }
            return;
          }
        }
        if overruns == old(overruns) {
          WrittenRow(daq, device.slave.daq, list, b);
        }
      }
      if overruns == old(overruns) {
        WrittenAll(daq, device.slave.daq, list);
        WrittenLess(daq, device.slave.daq, list, |list.odts|, 0);
      }
      ok := true;
    }

    // ----- Connection state -----

    /** Every unlocking attempt, with whatever seeds and keys; the results do not matter. */
    method UnlockEcu()
      requires Core()
      modifies this`commandCtr, this`lastResponse, this`lastError, this`connected, this`slaveConnected, this`activePage
      modifies this`events, this`unanswered, this`overruns, this`early, this`failed, this`unsized, device
      ensures Core() && Grew(old(Spent())) && Kept(old(connected), old(slaveConnected))
      ensures device.slave.mem == old(device.slave.mem) && device.slave.daq == old(device.slave.daq)
              && early == old(early)
      decreases 3
    {
      hide Linked, Announced, HasLists, AllExact, Willing, Deaf, Lossy, Responsive, Exec, Answer, Agree, Took, Counted,
           InOrder;
      for i := 0 to 3
        invariant Core() && Grew(old(Spent())) && Kept(old(connected), old(slaveConnected)) && early == old(early)
        invariant device.slave.mem == old(device.slave.mem) && device.slave.daq == old(device.slave.daq)
      {
        var wanted, hasKey: bool := *, *;
        var key: bytes := *;
        if wanted {
          var r := Run(GetSeed, 4);
          if r == OK && hasKey {
            r := Run(Unlock(key), 4);
            if r == OK {
              r := Run(ExchangeId, 7);
            }
          }
        }
      }
    }

    /** The version and the identity of the slave, with the text of the identity if it has one. */
    method Identify() returns (r: CmdResult, identity: bytes)
      requires Core()
      modifies this`commandCtr, this`lastResponse, this`lastError, this`connected, this`slaveConnected, this`activePage
      modifies this`events, this`unanswered, this`overruns, this`early, this`failed, this`unsized, this`idString, device
      ensures Core() && Grew(old(Spent())) && Kept(old(connected), old(slaveConnected))
      ensures device.slave.mem == old(device.slave.mem) && device.slave.daq == old(device.slave.daq)
              && early == old(early)
      ensures r == OK ==> |identity| >= 7
      decreases 4, 0
    {
      hide Linked, Announced, HasLists, AllExact, Willing, Deaf, Lossy, Responsive, Exec, Answer, Agree, Read;
      identity := [];
      r := Run(GetCcpVersion, 5);
      if r != OK {
        return;
      }
      var resp;
      r, resp := Ask(ExchangeId, 7, -1);
      if r != OK {
        return;
      }
      identity := resp.value;
      if identity[3] > 0 {
        var data := ReadSync(identity[3], 0, NO_ADDRESS, false);
        if data.Some? {
          idString := data.value;
        }
      }
    }

    /** Unlocks, sets the state and asks for the page, as far as that is allowed and succeeds. */
    method Prepare(protection: u8)
      requires Core()
      modifies this`commandCtr, this`lastResponse, this`lastError, this`connected, this`slaveConnected, this`activePage
      modifies this`events, this`unanswered, this`overruns, this`early, this`failed, this`unsized, device
      ensures Core() && Grew(old(Spent())) && Kept(old(connected), old(slaveConnected))
      ensures device.slave.mem == old(device.slave.mem) && device.slave.daq == old(device.slave.daq)
              && early == old(early)
      decreases 4, 0
    {
      hide Linked, Announced, HasLists, AllExact, Willing, Deaf, Lossy, Responsive, Exec;
      if IsAllowed(OptUnlock) && protection != 0 && hasSeedAndKey {
        UnlockEcu();
      }
      if IsAllowed(OptSetStatus) {
        var r := Run(SetStatus(CAL_AND_RUN), RES_MIN);
      }
      if IsAllowed(OptGetPage) {
        var r := Run(GetActivePage, 8);
      }
    }

    /** The requests after connecting. They may empty lists, but then the flag says so. */
    method DefaultRequests() returns (flag: bool)
      requires Core()
      modifies this`commandCtr, this`lastResponse, this`lastError, this`connected, this`slaveConnected, this`activePage
      modifies this`events, this`unanswered, this`overruns, this`early, this`failed, this`unsized, this`rasters,
               this`idString, this`daqConfigDirty, device
      ensures Core() && Grew(old(Spent())) && Kept(old(connected), old(slaveConnected))
      ensures device.slave.mem == old(device.slave.mem) && early == old(early)
      ensures if flag then daqConfigDirty
              else device.slave.daq == old(device.slave.daq) && daqConfigDirty == old(daqConfigDirty)
      ensures Narrowed(old(rasters), rasters)
      decreases 4, 1
    {
      hide Linked, Announced, HasLists, AllExact, Willing, Deaf, Lossy, Responsive, Exec, Answer, Agree, Read, Clear;
      var r, identity := Identify();
      if r != OK {
        return false;
      }
      if IsAllowed(OptGetStatus) {
        var state;
        r, state := StatusByte();
        if r != OK {
          return false;
        }
      }
      Prepare(identity[6]);
      ghost var cleared, heard := UpdateDaqSizes(true, ALL_LISTS);
      daqConfigDirty := true;
      flag := true;
    }

    /** Without a response, this sends nothing; with one, it may make requests of its own. */
    method SetConnectionState(resp: Option<bytes>)
      requires Core() && (resp.Some? ==> Clean() && Renewed())
      modifies this`connected, this`slaveConnected, this`activePage, this`events
      modifies if resp.Some? then {this as object, device} else {}
      ensures Core() && Grew(old(Spent()))
      ensures resp.None? ==> !connected && !slaveConnected
      ensures resp.Some? ==> Clean() && Renewed()
      ensures connected && !old(connected) && !preventDefaultRequests ==> daqConfigDirty
      ensures lists == old(lists) && isDaqRunning == old(isDaqRunning) && ended == old(ended) && early == old(early)
      ensures Narrowed(old(rasters), rasters)
      ensures doubted == old(doubted) && unheard == old(unheard) && vain == old(vain)
      ensures resp.Some? && preventDefaultRequests ==>
                && connected && slaveConnected && device.slave == old(device.slave) && device.queue == old(device.queue)
                && rasters == old(rasters) && daqConfigDirty == old(daqConfigDirty) && overruns == old(overruns)
      ensures device.slave.mem == old(device.slave.mem)
      decreases if resp.Some? then 5 else 0, 1
    {
      hide Linked, Announced, HasLists, AllExact, InStep;
      var was := connected;
      slaveConnected := resp.Some?;
      var flag := slaveConnected;
      if flag == was {
        return;
      }
      if flag && !preventDefaultRequests {
        flag := DefaultRequests();
      }
      SetConnected(flag);
    }

    /** Calls back if the state changes. */
    method SetConnected(flag: bool)
      requires Announced()
      modifies this`connected, this`activePage, this`events
      ensures Announced() && connected == flag
      decreases 0, 0
    {
      var changed := connected != flag;
      connected := flag;
      if !connected {
        activePage := None;
      }
      if changed {
        events := events + [connected];
      }
    }

    // ----- What a user calls -----

    method Connect() returns (r: CmdResult)
      requires Valid()
      modifies this, device
      ensures Valid() && Grew(old(Spent()))
      ensures early == old(early) && lists == old(lists) && device.slave.mem == old(device.slave.mem)
              && ended == old(ended)
      ensures isDaqRunning == old(isDaqRunning) && doubted == old(doubted) && unheard == old(unheard)
              && vain == old(vain)
      ensures Narrowed(old(rasters), rasters)
      ensures (connected ==> r == OK) && (r != OK ==> failed > old(failed))
      ensures connected && !old(connected) && !preventDefaultRequests ==> daqConfigDirty
      ensures Prompt(old(device.queue)) && preventDefaultRequests ==>
                && r == OK && connected && slaveConnected && Idle(old(overruns)) && device.slave == old(device.slave)
                && rasters == old(rasters) && daqConfigDirty == old(daqConfigDirty)
    {
      hide Linked, Announced, HasLists, AllExact, Willing, Deaf, Lossy, Responsive, Exec, Answer, Agree, InOrder;
      ExecPlain(device.slave);
      var resp;
      r, resp := Ask(Command.Connect, RES_MIN, -1);
      SetConnectionState(resp);
    }

    method DisconnectMode(endOfSession: bool, useTimeout: int) returns (ok: bool)
      requires Valid()
      modifies this`commandCtr, this`lastResponse, this`lastError, this`connected, this`slaveConnected, this`activePage
      modifies this`events, this`unanswered, this`overruns, this`early, this`failed, this`unsized, this`ended, device
      ensures Valid() && Grew(old(Spent()))
      ensures early == old(early)
      ensures old(slaveConnected) ==> !connected && !slaveConnected && ended == (old(ended) || endOfSession)
      ensures !ok ==> failed > old(failed)
      ensures !old(slaveConnected) ==> ok && connected == old(connected) && !slaveConnected && ended == old(ended)
      ensures Prompt(old(device.queue)) && old(slaveConnected) && endOfSession && useTimeout != 0 ==>
                ok && Idle(old(overruns)) && device.slave.daq == map[]
    {
      hide Linked, Announced, HasLists, AllExact, Willing, Deaf, Lossy, Responsive, Exec, Answer, Agree, InOrder;
      ExecPlain(device.slave);
      var r := OK;
      if slaveConnected {
        var resp;
        r, resp := Ask(Command.Disconnect(endOfSession), RES_MIN, useTimeout);
        ended := ended || endOfSession;
        SetConnectionState(None);
      }
      ok := r == OK;
    }

    method Disconnect(useTimeout: int) returns (ok: bool)
      requires Valid()
      modifies this`commandCtr, this`lastResponse, this`lastError, this`connected, this`slaveConnected, this`activePage
      modifies this`events, this`unanswered, this`overruns, this`early, this`failed, this`unsized, this`ended,
               this`isDaqRunning, device
      ensures Valid() && Grew(old(Spent()))
      ensures early == old(early)
      ensures old(slaveConnected) ==> !connected && !slaveConnected
      ensures !isDaqRunning
      ensures old(ended) ==> ended
      ensures Prompt(old(device.queue)) && old(slaveConnected) && useTimeout != 0 && !SomeOrphan(lists, rasters) ==>
                Idle(old(overruns)) && device.slave.daq == map[] && ended
    {
      var stopped := StopMeasurements();
      ok := DisconnectMode(true, useTimeout);
    }

    /** Every list has a source that can ask for its size. */
    ghost predicate AllSources()
      reads `lists, `rasters
    {
      forall i :: 0 <= i < |lists| ==> HasSource(rasters, lists[i].number)
    }

    /** Lists and sources belong together one to one. */
    ghost predicate Keyed()
      reads `lists, `rasters
    {
      OwnLists(rasters) && AllSources()
    }

    /** New lists, one for each source, filled in some way; or none at all if they do not fit. */
    method ConfigureMeasurements(tables: Option<seq<seq<seq<OdtEntry>>>>) returns (ok: bool)
      requires Valid() && (tables.Some? ==> Fills(rasters, tables.value))
      modifies this`lists, this`daqConfigDirty
      ensures Valid() && daqConfigDirty && ok == tables.Some?
      ensures lists == if ok then ListsOf(rasters, tables.value) else []
      ensures OwnLists(rasters) ==> Keyed()
    {
      if tables.Some? && OwnLists(rasters) {
        ListsHaveSources(rasters, tables.value);
      }
      lists := [];
      daqConfigDirty := true;
      if tables.None? {
        return false;
      }
      lists := ListsOf(rasters, tables.value);
      ok := true;
    }

    /** Takes the slave's lists out of action, if its state can be told and set. */
    method PauseDaq() returns (status: Option<u8>)
      requires Core()
      modifies this`commandCtr, this`lastResponse, this`lastError, this`connected, this`slaveConnected, this`activePage
      modifies this`events, this`unanswered, this`overruns, this`early, this`failed, this`unsized, device
      ensures Core() && Grew(old(Spent())) && Kept(old(connected), old(slaveConnected))
      ensures device.slave.daq == old(device.slave.daq) && early == old(early)
      ensures Prompt(old(device.queue)) ==> Idle(old(overruns)) && Same(old(connected), old(slaveConnected))
    {
      hide Linked, Announced, HasLists, AllExact, Willing, Deaf, Lossy, Responsive, Exec;
      status := None;
      if IsAllowed(OptGetStatus) && IsAllowed(OptSetStatus) {
        var r, state := StatusByte();
        if r == OK {
          status := Some(state);
          r := Run(SetStatus(WithDaq(state, false)), RES_MIN);
        }
      }
    }

    method ResumeDaq(status: Option<u8>)
      requires Core()
      modifies this`commandCtr, this`lastResponse, this`lastError, this`connected, this`slaveConnected, this`activePage
      modifies this`events, this`unanswered, this`overruns, this`early, this`failed, this`unsized, device
      ensures Core() && Grew(old(Spent())) && Kept(old(connected), old(slaveConnected))
      ensures device.slave.daq == old(device.slave.daq) && early == old(early)
      ensures Prompt(old(device.queue)) ==> Idle(old(overruns)) && Same(old(connected), old(slaveConnected))
    {
      hide Linked, Announced, HasLists, AllExact, Willing, Deaf, Lossy, Responsive, Exec;
      if status.Some? {
        var r := Run(SetStatus(WithDaq(status.value, true)), RES_MIN);
      }
    }

    lemma SourcedAt(i: nat)
      requires i < |lists|
      ensures AllSources() ==> HasSource(rasters, lists[i].number)
    {
    }

    /** Asks for and writes one list. */
    method ProgramList(list: DaqList) returns (ok: bool, ghost emptied: bool, ghost answered: bool)
      requires Core() && FitByte(list)
      modifies this`commandCtr, this`lastResponse, this`lastError, this`connected, this`slaveConnected, this`activePage
      modifies this`events, this`unanswered, this`overruns, this`early, this`failed, this`unsized, this`rasters, device
      ensures Core() && Grew(old(Spent())) && Kept(old(connected), old(slaveConnected))
      ensures early == old(early) && rasters == old(rasters) && (!ok ==> failed > old(failed))
      ensures ok && overruns == old(overruns) ==>
                && Programmed(old(device.slave.daq), device.slave.daq, list, emptied)
                && SameExcept(old(device.slave.daq), device.slave.daq, {list.number})
      ensures overruns == old(overruns) && answered ==> emptied
      ensures unsized == old(unsized) && HasSource(rasters, list.number) ==> answered
      ensures Prompt(old(device.queue)) ==>
                && ok && Idle(old(overruns))
                && (Responsive(device.policy) ==> Same(old(connected), old(slaveConnected)))
                && (Deaf(device.policy) ==>
                      !emptied && (Lossy(device.policy) && HasSource(rasters, list.number) ==> !connected))
    {
      hide Linked, Announced, HasLists, HasList, Programmed, Written, SameExcept, Exec, Clear, AllExact, Counted,
           HasSource, Answer, Agree, Willing, Deaf, Lossy, Responsive, InOrder;
      ghost var before := device.slave.daq;
      emptied, answered := UpdateDaqSizes(false, list.number);
      ghost var asked := device.slave.daq;
      ok := WriteDaqList(list);
      if ok && overruns == old(overruns) {
        CcpSteps.ProgramList(before, asked, device.slave.daq, list, emptied);
      }
    }

    /** Asks for and writes one list after the other. */
    method ProgramEach() returns (ok: bool, ghost cleared: set<nat>, ghost heard: set<nat>)
      requires Core() && FitBytes(lists)
      modifies this`commandCtr, this`lastResponse, this`lastError, this`connected, this`slaveConnected, this`activePage
      modifies this`events, this`unanswered, this`overruns, this`early, this`failed, this`unsized, this`rasters, device
      ensures Core() && Grew(old(Spent())) && Kept(old(connected), old(slaveConnected))
      ensures early == old(early) && rasters == old(rasters) && (!ok ==> failed > old(failed))
      ensures ok && overruns == old(overruns) ==>
                heard <= cleared && AllProgrammed(old(device.slave.daq), device.slave.daq, lists, cleared)
      ensures ok && unsized == old(unsized) && AllSources() ==> Numbers(lists, |lists|) <= heard
      ensures Prompt(old(device.queue)) ==>
                && ok && Idle(old(overruns))
                && (Responsive(device.policy) ==> Same(old(connected), old(slaveConnected)))
                && (Deaf(device.policy) ==>
                      cleared == {} && (Lossy(device.policy) && lists != [] && AllSources() ==> !connected))
    {
      hide Linked, Announced, HasLists, HasList, Programmed, Written, SameExcept, Exec, Clear, WithDaq, AllExact,
           Counted, HasSource, Answer, Agree, Willing, Deaf, Lossy, Responsive, InOrder, Numbers, Programming,
             AllProgrammed, FitBytes, FitByte, AllSources, Took, SomeOrphan, InStep, Going;
      ghost var sourced := AllSources();
      ghost var before := device.slave.daq;
      cleared, heard := {}, {};
      ProgrammingNothing(before, lists);
      for i := 0 to |lists|
        invariant Core() && Grew(old(Spent())) && Kept(old(connected), old(slaveConnected)) && early == old(early)
        invariant rasters == old(rasters)
        invariant overruns == old(overruns) ==>
                  heard <= cleared && Programming(before, device.slave.daq, lists, i, cleared)
        invariant unsized == old(unsized) && sourced ==> Numbers(lists, i) <= heard
        invariant Prompt(old(device.queue)) ==>
                    && Idle(old(overruns)) && (Responsive(device.policy) ==> Same(old(connected), old(slaveConnected)))
                    && (Deaf(device.policy) ==>
                          cleared == {} && (Lossy(device.policy) && i > 0 && sourced ==> !connected))
      {
        ghost var daq := device.slave.daq;
        ghost var emptied, answered;
        FitAt(lists, i);
        SourcedAt(i);
        ok, emptied, answered := ProgramList(lists[i]);
        if !ok {
          return;
        }
        if overruns == old(overruns) {
          ProgramOne(before, daq, device.slave.daq, lists, i, cleared, emptied);
        }
        NumbersGrow(lists, i);
        cleared := if emptied then cleared + {lists[i].number} else cleared;
        heard := if answered then heard + {lists[i].number} else heard;
      }
      if overruns == old(overruns) {
        ProgrammingDone(before, device.slave.daq, lists, cleared);
      }
      ok := true;
    }

    /** The same, with the slave's lists out of action meanwhile, if its state can be told and set. */
    method ProgramLists() returns (ok: bool, ghost cleared: set<nat>, ghost heard: set<nat>)
      requires Core() && FitBytes(lists)
      modifies this`commandCtr, this`lastResponse, this`lastError, this`connected, this`slaveConnected, this`activePage
      modifies this`events, this`unanswered, this`overruns, this`early, this`failed, this`unsized, this`rasters, device
      ensures Core() && Grew(old(Spent())) && Kept(old(connected), old(slaveConnected))
      ensures early == old(early) && rasters == old(rasters) && (!ok ==> failed > old(failed))
      ensures ok && overruns == old(overruns) ==>
                heard <= cleared && AllProgrammed(old(device.slave.daq), device.slave.daq, lists, cleared)
      ensures ok && unsized == old(unsized) && AllSources() ==> Numbers(lists, |lists|) <= heard
      ensures Prompt(old(device.queue)) ==>
                && ok && Idle(old(overruns))
                && (Responsive(device.policy) ==> Same(old(connected), old(slaveConnected)))
                && (Deaf(device.policy) ==>
                      cleared == {} && (Lossy(device.policy) && lists != [] && AllSources() ==> !connected))
    {
      hide Linked, Announced, Exec, WithDaq, AllExact, HasLists, Answer, Agree, Willing, Deaf, Lossy, Responsive,
           Numbers, AllProgrammed, FitBytes, AllSources, Took, Counted, InOrder, InStep;
      var status := PauseDaq();
      ok, cleared, heard := ProgramEach();
      if ok {
        ResumeDaq(status);
      }
    }

    /** Starts one list, or gets it ready; nothing is sent for a list that belongs to no source. */
    method StartOne(i: nat, synchronized: bool) returns (ok: bool, started: bool)
      requires Core() && i < |lists| && FitByte(lists[i]) && lists[i].odts != []
      modifies this`commandCtr, this`lastResponse, this`lastError, this`connected, this`slaveConnected, this`activePage
      modifies this`events, this`unanswered, this`overruns, this`early, this`failed, this`unsized, device
      ensures Core() && Grew(old(Spent())) && Kept(old(connected), old(slaveConnected))
      ensures device.slave.daq == old(device.slave.daq) && started == HasKey(rasters, lists[i].number)
      ensures early == if started then Counted(old(early), StartStop(ModeOf(synchronized), lists[i].number),
                                               old(device.slave.daq), lists)
                       else old(early)
      ensures ok && overruns == old(overruns) ==>
                if synchronized then device.slave.prepared == old(device.slave.prepared) + {lists[i].number}
                else device.slave.running == old(device.slave.running) + {lists[i].number}
      ensures ok ==> started
      ensures !ok ==> failed > old(failed) || SomeOrphan(lists, rasters)
      ensures Prompt(old(device.queue)) && !SomeOrphan(lists, rasters) ==>
                ok && Idle(old(overruns)) && Same(old(connected), old(slaveConnected))
    {
      hide Linked, Announced, HasLists, AllExact, Exec, Answer, Agree, Willing, Deaf, Lossy, Responsive, SomeOrphan,
           HasKey, Counted, InOrder;
      started := exists k :: 0 <= k < |rasters| && rasters[k].key == lists[i].number;
      KnownKey(rasters, lists[i].number);
      if !started {
        OrphanAt(lists, rasters, i);
        return false, false;
      }
      var r := StartStopList(ModeOf(synchronized), lists[i].number % 256);
      ok := r == OK;
    }

    method StartLists(synchronized: bool) returns (ok: bool, flag: bool)
      requires Core() && FitBytes(lists)
      modifies this`commandCtr, this`lastResponse, this`lastError, this`connected, this`slaveConnected, this`activePage
      modifies this`events, this`unanswered, this`overruns, this`early, this`failed, this`unsized, device
      ensures Core() && Grew(old(Spent())) && Kept(old(connected), old(slaveConnected))
      ensures device.slave.daq == old(device.slave.daq)
      ensures early.missing > old(early).missing <==> !HasLists(device.slave.daq, lists) && CanStart(lists, rasters)
      ensures early.inexact > old(early).inexact <==> !AllExact(device.slave.daq, lists) && CanStart(lists, rasters)
      ensures old(early).missing <= early.missing && old(early).inexact <= early.inexact
      ensures ok && overruns == old(overruns) ==> Going(device.slave.running, lists, |lists|)
      ensures !ok ==> failed > old(failed) || SomeOrphan(lists, rasters)
      ensures ok ==> (flag <==> !Bare(lists, |lists|))
      ensures Prompt(old(device.queue)) && !SomeOrphan(lists, rasters) ==>
                ok && Idle(old(overruns)) && Same(old(connected), old(slaveConnected))
    {
      hide Linked, Announced, HasLists, AllExact, Exec, Answer, Agree, Willing, Deaf, Lossy, Responsive, CanStart,
           SomeOrphan, HasKey, Bare, Tallied, Counted, InOrder, Going, FitBytes, FitByte;
      ok, flag := true, false;
      NothingTallied(early, device.slave.daq, lists);
      NoneStarted(lists);
      var i := 0;
      while i < |lists| && ok
        invariant i <= |lists| && Core() && Grew(old(Spent())) && Kept(old(connected), old(slaveConnected))
        invariant device.slave.daq == old(device.slave.daq)
        invariant ok && overruns == old(overruns) ==>
                    Going(if synchronized then device.slave.prepared else device.slave.running, lists, i)
        invariant if flag then CanStart(lists, rasters) else if ok then Bare(lists, i) else !CanStart(lists, rasters)
        invariant Tallied(old(early), early, device.slave.daq, lists, flag)
        invariant !ok ==> failed > old(failed) || SomeOrphan(lists, rasters)
        invariant Prompt(old(device.queue)) && !SomeOrphan(lists, rasters) ==>
                    ok && Idle(old(overruns)) && Same(old(connected), old(slaveConnected))
      {
        StartingAt(lists, rasters, i, if synchronized then device.slave.prepared else device.slave.running);
        if lists[i].odts != [] {
          var started;
          TalliedMore(old(early), early, device.slave.daq, lists, flag,
                      StartStop(ModeOf(synchronized), lists[i].number));
          ok, started := StartOne(i, synchronized);
          flag := flag || started;
        }
        i := i + 1;
      }
      AllStarted(lists, rasters, device.slave.running, device.slave.prepared);
      if ok && synchronized && flag {
        TalliedMore(old(early), early, device.slave.daq, lists, flag, StartStopAll(Start));
        var r := StartStopEveryList(Start);
        ok := r == OK;
      }
      TallyIs(old(early), early, device.slave.daq, lists, flag);
    }

    /** What is sure about the lists after their programming. */
    ghost method TakeNote(overrunsBefore: nat, before: Daq, cleared: set<nat>, heard: set<nat>)
      requires overruns == overrunsBefore ==>
                heard <= cleared && AllProgrammed(before, device.slave.daq, lists, cleared)
      modifies this`ended, this`doubted, this`unheard, this`vain
      ensures !ended && doubted == (overruns != overrunsBefore)
      ensures vain == old(vain) + if unheard == {} then 0 else 1
      ensures !doubted ==> InStep(device.slave.daq, lists, unheard)
      ensures Numbers(lists, |lists|) <= heard ==> unheard == {}
    {
      hide AllProgrammed, InStep, Numbers;
      ended := false;
      doubted := overruns != overrunsBefore;
      unheard := Numbers(lists, |lists|) - heard;
      NoneUnheard(lists, heard);
      vain := if unheard == {} then vain else vain + 1;
      if !doubted {
        ProgrammedInStep(before, device.slave.daq, lists, cleared, heard, unheard);
      }
    }

    /** Programs dirty lists, and takes note of what is sure about them afterwards. */
    method Reprogram() returns (ok: bool, ghost cleared: set<nat>)
      requires Core() && FitBytes(lists) && daqConfigDirty
      modifies this`commandCtr, this`lastResponse, this`lastError, this`connected, this`slaveConnected, this`activePage
      modifies this`events, this`unanswered, this`overruns, this`early, this`failed, this`unsized, this`rasters, device
      modifies this`daqConfigDirty, this`ended, this`doubted, this`unheard, this`vain
      ensures Core() && Grew(old(Spent())) && Kept(old(connected), old(slaveConnected))
      ensures early == old(early) && rasters == old(rasters) && (!ok ==> failed > old(failed))
      ensures daqConfigDirty == !ok
      ensures if ok then !ended && doubted == (overruns != old(overruns))
              else ended == old(ended) && doubted == old(doubted)
      ensures if ok then vain == old(vain) + (if unheard == {} then 0 else 1)
              else vain == old(vain) && unheard == old(unheard)
      ensures ok && !doubted ==> InStep(device.slave.daq, lists, unheard)
      ensures ok && unsized == old(unsized) && AllSources() ==> unheard == {}
      ensures ok && overruns == old(overruns) ==>
                AllProgrammed(old(device.slave.daq), device.slave.daq, lists, cleared)
      ensures Prompt(old(device.queue)) ==>
                && ok && Idle(old(overruns)) && (Deaf(device.policy) ==> cleared == {})
                && (Responsive(device.policy) ==> Same(old(connected), old(slaveConnected)))
                && (Deaf(device.policy) && Lossy(device.policy) && lists != [] && AllSources() ==> !connected)
    {
      hide *;
      ghost var before, heard := device.slave.daq, {};
      ok, cleared, heard := ProgramLists();
      if ok {
        daqConfigDirty := false;
        TakeNote(old(overruns), before, cleared, heard);
      }
    }

    /** Starts clean lists. */
    method Launch(doSynchronized: bool) returns (ok: bool)
      requires Core() && FitBytes(lists) && !daqConfigDirty && Clean()
      modifies this`commandCtr, this`lastResponse, this`lastError, this`connected, this`slaveConnected, this`activePage
      modifies this`events, this`unanswered, this`overruns, this`early, this`failed, this`unsized, this`isDaqRunning,
               device
      ensures Core() && Grew(old(Spent())) && Kept(old(connected), old(slaveConnected))
      ensures device.slave.daq == old(device.slave.daq)
      ensures !doubted && !ended ==> early.missing == old(early).missing && (unheard == {} ==> early == old(early))
      ensures old(early).missing <= early.missing && old(early).inexact <= early.inexact
      ensures early.missing > old(early).missing <==> !HasLists(device.slave.daq, lists) && CanStart(lists, rasters)
      ensures early.inexact > old(early).inexact <==> !AllExact(device.slave.daq, lists) && CanStart(lists, rasters)
      ensures if ok then isDaqRunning <==> !Bare(lists, |lists|) else isDaqRunning == old(isDaqRunning)
      ensures !ok ==> failed > old(failed) || SomeOrphan(lists, rasters)
      ensures ok && overruns == old(overruns) ==> Going(device.slave.running, lists, |lists|)
      ensures Prompt(old(device.queue)) && !SomeOrphan(lists, rasters) ==>
                ok && Idle(old(overruns)) && Same(old(connected), old(slaveConnected))
    {
      hide Linked, Announced, HasLists, AllExact, Willing, SomeOrphan, CanStart, InOrder, FitBytes, InStep, Going, Bare,
           Grew, Kept, Core;
      InStepIsExact(device.slave.daq, lists, unheard);
      var flag;
      ok, flag := StartLists(doSynchronized && IsAllowed(OptStartStopAll));
      if ok {
        isDaqRunning := flag;
      }
    }

    /**
     Programs the lists if they are dirty, then starts them. Lists that answered the question for their size are exact.
     */
    method StartMeasurements(doSynchronized: bool) returns (ok: bool, ghost cleared: set<nat>)
      requires Valid()
      modifies this`commandCtr, this`lastResponse, this`lastError, this`connected, this`slaveConnected, this`activePage
      modifies this`events, this`unanswered, this`overruns, this`early, this`failed, this`unsized, this`rasters, device
      modifies this`daqConfigDirty, this`ended, this`isDaqRunning, this`doubted, this`unheard, this`vain
      ensures Valid() && Grew(old(Spent())) && rasters == old(rasters)
      ensures !old(connected) || old(isDaqRunning) ==> !ok && device.slave == old(device.slave) && early == old(early)
      ensures (overruns == old(overruns) && !old(doubted) ==> !doubted) && (ended ==> old(ended))
      ensures old(vain) <= vain && (vain == old(vain) && old(unheard) == {} ==> unheard == {})
      ensures AllSources() ==> vain - old(vain) <= unsized - old(unsized)
      ensures daqConfigDirty ==> old(daqConfigDirty) && early == old(early)
      ensures !doubted && (old(daqConfigDirty) || !old(ended) || !preventDefaultRequests) ==>
                early.missing == old(early).missing && (unheard == {} ==> early == old(early))
      ensures old(early).missing <= early.missing && old(early).inexact <= early.inexact
      ensures old(connected) && !old(isDaqRunning) && !daqConfigDirty ==>
                && (early.missing > old(early).missing
                    <==> !HasLists(device.slave.daq, lists) && CanStart(lists, rasters))
                && (early.inexact > old(early).inexact
                    <==> !AllExact(device.slave.daq, lists) && CanStart(lists, rasters))
      ensures !old(daqConfigDirty) ==> device.slave.daq == old(device.slave.daq)
      ensures ok && lists != [] ==> !daqConfigDirty && (isDaqRunning <==> !Bare(lists, |lists|))
      ensures !ok ==> !old(connected) || old(isDaqRunning) || failed > old(failed) || SomeOrphan(lists, rasters)
      ensures ok && overruns == old(overruns) ==>
                Going(device.slave.running, lists, |lists|)
      ensures ok && lists != [] && old(daqConfigDirty) && overruns == old(overruns) ==>
                && InStep(device.slave.daq, lists, unheard)
                && (unsized == old(unsized) && AllSources() ==> unheard == {} && AllExact(device.slave.daq, lists))
                && AllProgrammed(old(device.slave.daq), device.slave.daq, lists, cleared)
      ensures Prompt(old(device.queue)) && old(connected) && !old(isDaqRunning) && !SomeOrphan(lists, rasters) ==>
                && ok && Idle(old(overruns)) && (Deaf(device.policy) ==> cleared == {})
                && (Responsive(device.policy) ==> Same(old(connected), old(slaveConnected)))
                && (Deaf(device.policy) && Lossy(device.policy) && old(daqConfigDirty) && AllSources() && lists != []
                    ==> !connected)
    {
      hide Linked, Announced, HasLists, HasList, IsExactly, Programmed, AllExact, Willing, Deaf, Lossy, Responsive,
           HasSource, SomeOrphan, CanStart, Exec, Answer, Agree, Numbers, InOrder, AllProgrammed, FitBytes, InStep,
             AllSources, Going, Bare;
      cleared := {};
      if !connected || isDaqRunning {
        return false, cleared;
      }
      if lists == [] {
        NoLists(device.slave.daq, lists);
        NoStart(device.slave, lists, rasters);
        return true, cleared;
      }
      if daqConfigDirty {
        ok, cleared := Reprogram();
        if !ok {
          return;
        }
      }
      InStepIsExact(device.slave.daq, lists, unheard);
      ok := Launch(doSynchronized);
    }

    method StopLists() returns (ok: bool)
      requires Core() && FitBytes(lists)
      modifies this`commandCtr, this`lastResponse, this`lastError, this`connected, this`slaveConnected, this`activePage
      modifies this`events, this`unanswered, this`overruns, this`early, this`failed, this`unsized, device
      ensures Core() && Grew(old(Spent())) && Kept(old(connected), old(slaveConnected))
      ensures device.slave.daq == old(device.slave.daq) && device.slave.mem == old(device.slave.mem)
              && early == old(early)
      ensures ok && overruns == old(overruns) ==> forall j :: 0 <= j < |lists| && lists[j].odts != [] ==>
                lists[j].number !in device.slave.running
      ensures !ok ==> failed > old(failed) || SomeOrphan(lists, rasters)
      ensures Prompt(old(device.queue)) && !SomeOrphan(lists, rasters) ==>
                ok && Idle(old(overruns)) && Same(old(connected), old(slaveConnected))
    {
      hide SomeOrphan, HasKey, Linked, Announced, HasLists, AllExact, Willing, Deaf, Lossy, Responsive, Exec;
      for i := 0 to |lists|
        invariant Core() && Grew(old(Spent())) && Kept(old(connected), old(slaveConnected)) && early == old(early)
        invariant device.slave.daq == old(device.slave.daq) && device.slave.mem == old(device.slave.mem)
        invariant Prompt(old(device.queue)) ==> Idle(old(overruns)) && Same(old(connected), old(slaveConnected))
        invariant overruns == old(overruns) ==> forall j :: 0 <= j < i && lists[j].odts != [] ==>
                  lists[j].number !in device.slave.running
      {
        if lists[i].odts == [] {
          continue;
        }
        KnownKey(rasters, lists[i].number);
        if !(exists k :: 0 <= k < |rasters| && rasters[k].key == lists[i].number) {
          OrphanAt(lists, rasters, i);
          return false;
        }
        var r := StartStopList(Stop, lists[i].number % 256);
        if r != OK {
          return false;
        }
      }
      ok := true;
    }

    method StopMeasurements() returns (ok: bool)
      requires Valid()
      modifies this`commandCtr, this`lastResponse, this`lastError, this`connected, this`slaveConnected, this`activePage
      modifies this`events, this`unanswered, this`overruns, this`early, this`failed, this`unsized, this`isDaqRunning,
               device
      ensures Valid() && Grew(old(Spent()))
      ensures early == old(early) && !isDaqRunning
      ensures device.slave.daq == old(device.slave.daq) && device.slave.mem == old(device.slave.mem)
      ensures ok && old(isDaqRunning) && overruns == old(overruns) ==>
                forall i :: 0 <= i < |lists| && lists[i].odts != [] ==> lists[i].number !in device.slave.running
      ensures !ok ==> failed > old(failed) || SomeOrphan(lists, rasters)
      ensures Kept(old(connected), old(slaveConnected))
      ensures Prompt(old(device.queue)) && !SomeOrphan(lists, rasters) ==>
                ok && Idle(old(overruns)) && Same(old(connected), old(slaveConnected))
    {
      hide Linked, Announced, HasLists, AllExact, Willing, Deaf, Lossy, Responsive, Exec;
      ok := true;
      if isDaqRunning {
        if IsAllowed(OptStartStopAll) {
          var r := StartStopEveryList(Stop);
          ok := r == OK;
        } else {
          ok := StopLists();
        }
      }
      isDaqRunning := false;
    }

    /** Takes whatever has arrived. */
    method Poll() returns (n: nat)
      requires Valid()
      modifies this`lastResponse, this`unanswered, device
      ensures Valid() && device.slave == old(device.slave) && Grew(old(Spent())) && unanswered <= old(unanswered)
    {
      hide Announced, HasLists, InOrder;
      n := 0;
      var frames: nat := *;
      while n < frames
        invariant Linked() && device.slave == old(device.slave) && unanswered <= old(unanswered)
        invariant device.serial == old(device.serial)
      {
        ghost var queue := device.queue;
        var frame := device.Receive();
        if frame.None? {
          return;
        }
        var resp := ClassifyFrame(frame.value);
        if queue != [] {
          TakenInOrder(queue, device.serial);
        }
        unanswered := if device.queue == [] then 0 else unanswered;
        n := n + 1;
      }
    }

    // ----- Runs -----

    /** No session is ended by these requests, nor was it before. */
    ghost predicate Calm(requests: seq<Request>)
      reads `ended
    {
      !ended && forall i :: 0 <= i < |requests| ==> !requests[i].DoDisconnect?
    }

    method Serve(request: Request)
      requires Valid()
      modifies this, device
      ensures Valid() && Grew(old(Spent()))
      ensures overruns == old(overruns) && !old(doubted) ==> !doubted
      ensures !request.DoDisconnect? && ended ==> old(ended)
      ensures old(vain) <= vain && (vain == old(vain) && old(unheard) == {} ==> unheard == {})
      ensures !doubted && (!preventDefaultRequests || !old(ended)) ==>
                early.missing == old(early).missing && (unheard == {} ==> early == old(early))
      ensures old(Keyed()) ==> Keyed() && vain - old(vain) <= unsized - old(unsized)
    {
      hide Linked, Announced, HasLists, AllExact, Willing, Deaf, Lossy, Responsive, OwnLists, HasSource, Narrowed,
           InStep;
      match request {
        case DoConnect =>
          var r := Connect();
          NarrowedKeeps(old(rasters), rasters);
        case DoDisconnect(useTimeout) =>
          var r := Disconnect(useTimeout);
        case DoConfigure(tables) =>
          if tables.None? || Fills(rasters, tables.value) {
            var r := ConfigureMeasurements(tables);
          }
        case DoStart(doSynchronized) =>
          var r, cleared := StartMeasurements(doSynchronized);
        case DoStop =>
          var r := StopMeasurements();
        case DoRead(len, extension, address) =>
          var r := ReadSync(len, extension, address, true);
        case DoWrite(extension, address, data, prog) =>
          var r := WriteSync(extension, address, data, prog, true);
        case DoPoll =>
          var n := Poll();
      }
    }

    /** Default requests are allowed, or the requests are calm. */
    ghost predicate Harmless(requests: seq<Request>)
      reads `ended
    {
      !preventDefaultRequests || Calm(requests)
    }

    /**
     Over every run. With fewer than 256 failed commands, counting the unanswered ones before, nothing overruns.
     Without overruns, and if default requests are allowed or no session is ended, no list is started while a
     configured element is missing; and a clean flag (on a connected master, if sessions may end) says that the slave
     has every configured element, exactly so for the lists that answered when asked for their size. If lists and
     sources belong together and no question for a size failed, that is all of them, and no list that is not exactly
     as configured is started.
     */
    method Drive(requests: seq<Request>)
      requires Valid()
      modifies this, device
      ensures Valid() && Grew(old(Spent()))
      ensures old(vain) <= vain && (old(Keyed()) ==> Keyed() && vain - old(vain) <= unsized - old(unsized))
      ensures overruns == old(overruns) && !old(doubted) && old(Harmless(requests)) ==>
                && early.missing == old(early).missing
                && (vain == old(vain) && old(unheard) == {} ==> early == old(early))
                && (!daqConfigDirty && ((connected && !preventDefaultRequests) || old(Calm(requests))) ==>
                      && InStep(device.slave.daq, lists, unheard)
                      && (vain == old(vain) && old(unheard) == {} ==> AllExact(device.slave.daq, lists)))
      ensures overruns == old(overruns) && !old(doubted) && old(Harmless(requests))
              && old(unheard) == {} && old(Keyed()) && unsized == old(unsized) ==>
                && early == old(early)
                && (!daqConfigDirty && ((connected && !preventDefaultRequests) || old(Calm(requests))) ==>
                      AllExact(device.slave.daq, lists))
    {
      hide Linked, Announced, HasLists, AllExact, Willing, Deaf, Lossy, Responsive, OwnLists, HasSource, InStep;
      for i := 0 to |requests|
        invariant Valid() && Grew(old(Spent()))
        invariant overruns == old(overruns) && !old(doubted) ==> !doubted
        invariant old(Calm(requests)) ==> !ended
        invariant old(vain) <= vain && (vain == old(vain) && old(unheard) == {} ==> unheard == {})
        invariant old(Keyed()) ==> Keyed() && vain - old(vain) <= unsized - old(unsized)
        invariant overruns == old(overruns) && !old(doubted) && old(Harmless(requests)) ==>
                    early.missing == old(early).missing
                      && (vain == old(vain) && old(unheard) == {} ==> early == old(early))
      {
        Serve(requests[i]);
      }
      InStepIsExact(device.slave.daq, lists, unheard);
    }
  }
}
