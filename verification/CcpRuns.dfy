/** Runs in which the master goes wrong, played against a scripted slave. */
module CcpRuns {
  import opened Bytes
  import opened CcpLink
  import opened CcpMaster
  import opened CcpSlave
  import opened CcpSteps
  import opened Wrappers

  const LIST := 7
  const FIRST := OdtEntry(1, Loc(0, 0x1000))
  const SECOND := OdtEntry(1, Loc(0, 0x1001))
  const LONG: seq<seq<seq<OdtEntry>>> := [[[FIRST, SECOND]]]
  const SHORT: seq<seq<seq<OdtEntry>>> := [[[FIRST]]]
  const SOURCES := [Raster(LIST, Some(Qp(LIST, 10, 0)))]

  function Blank(daq: Daq): Slave {
    Slave(map[], Loc(0, 0), Loc(0, 0), daq, None, {}, {}, map[])
  }

  /** Obeys everything but questions about the size of a list. */
  function Stubborn(lost: bool): (nat, Command) -> Fate {
    (n: nat, c: Command) => if c.GetDaqSize? then (if lost then Lost else Refused(0x32)) else Obeyed
  }

  lemma StubbornIsWilling(lost: bool)
    ensures Willing(Stubborn(lost)) && Deaf(Stubborn(lost))
            && (if lost then Lossy(Stubborn(lost)) else Responsive(Stubborn(lost)))
  {
  }

  /** What the sources and tables of these runs amount to. */
  lemma OneList(tables: seq<seq<seq<OdtEntry>>>)
    requires |tables| == 1 && |tables[0]| == 1 && 0 < |tables[0][0]| <= 2
    ensures Fills(SOURCES, tables)
    ensures var lists := ListsOf(SOURCES, tables);
            && lists == [DaqList(LIST, tables[0])]
            && !SomeOrphan(lists, SOURCES) && CanStart(lists, SOURCES)
            && HasSource(SOURCES, LIST)
  {
    var lists := ListsOf(SOURCES, tables);
    assert SOURCES[0].key == LIST && SOURCES[0].qp.Some?;
    assert HasKey(SOURCES, LIST);
    assert lists[0].odts != [] && Bare(lists, 0);
  }

  /** An element of the longer configuration that the shorter one lacks. */
  lemma LeftOver(before: Daq, after: Daq)
    requires HasList(before, DaqList(LIST, LONG[0])) && Programmed(before, after, DaqList(LIST, SHORT[0]), false)
    ensures !IsExactly(after, DaqList(LIST, SHORT[0]))
  {
    var slot := Slot(LIST, 0, 1);
    assert InTable(DaqList(LIST, LONG[0]), slot) && !InTable(DaqList(LIST, SHORT[0]), slot);
  }

  /** A master that makes no requests of its own, connected to a slave that is idle and willing. */
  ghost predicate Ready(m: Master)
    reads m, m.device
  {
    && m.Valid() && m.Prompt(m.device.queue) && m.preventDefaultRequests && m.rasters == SOURCES
    && m.connected && m.slaveConnected && !m.isDaqRunning && !m.doubted && !m.ended
  }

  /** Configures the list and starts it. */
  method ConfigureAndStart(m: Master, tables: seq<seq<seq<OdtEntry>>>)
    requires Ready(m)
    requires |tables| == 1 && |tables[0]| == 1 && 0 < |tables[0][0]| <= 2
    modifies m, m.device
    ensures m.Valid() && m.Prompt(m.device.queue) && m.rasters == SOURCES && m.lists == [DaqList(LIST, tables[0])]
    ensures !SomeOrphan(m.lists, SOURCES)
    ensures m.isDaqRunning && !m.daqConfigDirty && !m.doubted && !m.ended && m.overruns == old(m.overruns)
    ensures HasList(m.device.slave.daq, m.lists[0]) && m.early.missing == old(m.early).missing
    ensures old(m.early).inexact <= m.early.inexact
    ensures !IsExactly(m.device.slave.daq, m.lists[0]) ==> m.early.inexact > old(m.early).inexact
    ensures Deaf(m.device.policy) ==> Programmed(old(m.device.slave.daq), m.device.slave.daq, m.lists[0], false)
    ensures Responsive(m.device.policy) ==> m.connected && m.slaveConnected
    ensures Deaf(m.device.policy) && Lossy(m.device.policy) ==> !m.connected
  {
    hide Willing, Deaf, Lossy, Responsive, Exec, HasList, IsExactly, Programmed, ListsOf, CanStart, SomeOrphan,
         HasSource, Fills, InOrder, Going, FitBytes;
    OneList(tables);
    var ok := m.ConfigureMeasurements(Some(tables));
    assert m.AllSources();
    ghost var cleared;
    ok, cleared := m.StartMeasurements(false);
  }

  /** Stops the lists and connects again. */
  method StopAndConnect(m: Master)
    requires m.Valid() && m.Prompt(m.device.queue) && m.preventDefaultRequests && m.rasters == SOURCES
    requires !SomeOrphan(m.lists, SOURCES) && !m.doubted && !m.ended
    modifies m, m.device
    ensures Ready(m) && m.overruns == old(m.overruns) && m.early == old(m.early)
            && m.daqConfigDirty == old(m.daqConfigDirty)
    ensures m.device.slave.daq == old(m.device.slave.daq)
  {
    hide Willing, SomeOrphan, InOrder, FitBytes;
    var stopped := m.StopMeasurements();
    var r := m.Connect();
  }

  /**
   A longer configuration, then a shorter one, while the slave refuses or does not hear the question that would empty
   its list: starting succeeds and cleans the flag, but the slave's list holds more than was configured. If the question
   is lost, so is the connection, and the list is started all the same.
   */
  method StaleElements(lost: bool) returns (m: Master)
    ensures m.isDaqRunning && !m.daqConfigDirty && !m.doubted && !m.ended && m.overruns == 0
    ensures HasLists(m.device.slave.daq, m.lists) && !AllExact(m.device.slave.daq, m.lists)
    ensures m.early.missing == 0 && m.early.inexact > 0 && m.connected == !lost
  {
    hide Willing, Deaf, Lossy, Responsive, Exec, HasList, IsExactly, Programmed, InOrder, FitBytes, Stubborn,
         SomeOrphan, InStep;
    StubbornIsWilling(lost);
    var device := new Device(Blank(map[]), Stubborn(lost));
    m := new Master(device, true, true, {}, (_: bytes) => false, false, SOURCES);
    var r := m.Connect();
    ConfigureAndStart(m, LONG);
    StopAndConnect(m);
    ghost var before := device.slave.daq;
    ConfigureAndStart(m, SHORT);
    LeftOver(before, device.slave.daq);
  }

  /** Obeys everything. */
  function Obedient(): (nat, Command) -> Fate {
    (n: nat, c: Command) => Obeyed
  }

  lemma ObedientIsWilling()
    ensures Willing(Obedient()) && Responsive(Obedient())
  {
  }

  /** An empty slave has none of the elements. */
  lemma NothingLeft(list: DaqList)
    requires |list.odts| > 0 && |list.odts[0]| > 0
    ensures !HasLists(map[], [list])
  {
    assert InTable(list, Slot(list.number, 0, 0)) && !HasList(map[], [list][0]);
  }

  /**
   Connect, configure, start, end the session, connect, start, against a slave that obeys everything at once: without
   default requests the flag stays clean, and the list is started although the slave has lost every element of it.
   */
  method EndedSession() returns (m: Master)
    ensures m.isDaqRunning && !m.daqConfigDirty && !m.doubted && m.overruns == 0 && m.connected
    ensures m.early.missing > 0 && !HasLists(m.device.slave.daq, m.lists)
  {
    hide Willing, Deaf, Lossy, Responsive, Exec, HasLists, HasList, IsExactly, Programmed, InOrder, FitBytes,
         SomeOrphan, InStep, Obedient, AllExact, CanStart, Going, ListsOf, HasSource;
    ObedientIsWilling();
    OneList(SHORT);
    var device := new Device(Blank(map[]), Obedient());
    m := new Master(device, true, true, {}, (_: bytes) => false, false, SOURCES);
    var r := m.Connect();
    ConfigureAndStart(m, SHORT);
    NothingLeft(m.lists[0]);
    var ok := m.Disconnect(-1);
    r := m.Connect();
    ghost var cleared;
    ok, cleared := m.StartMeasurements(false);
  }

  /** Obeys the first command, but holds its reply back until 255 more are lost. Then it hears nothing more. */
  function Sluggish(): (nat, Command) -> Fate {
    (n: nat, c: Command) => if n == 0 then Late else if n < 256 then Mute else Lost
  }

  lemma SluggishReplies(n: nat, ctr: u8, c: Command, s: Slave, serial: nat)
    ensures RepliesOf(Sluggish()(n, c), ctr, c, s, serial)
         == if n == 0 then [Reply(FullReply(ctr, c, s), serial)] else []
    ensures AfterFate(Sluggish()(n, c), c, s) == if n == 0 then Exec(s, c) else s
    ensures !Sluggish()(n, c).Free? && (Sluggish()(n, c).Delivers() <==> n >= 256)
  {
    hide Exec, FullReply;
  }

  /** Questions for the state that get no reply in time, until 256 of them are unanswered. */
  method Fall256Behind() returns (m: Master)
    ensures fresh(m) && fresh(m.device) && m.Core() && m.unanswered == 256 && m.overruns == 0 && m.device.serial == 256
            && m.commandCtr == 0
    ensures m.device.policy == Sluggish() && m.device.slave == Blank(map[])
    ensures m.device.queue == [Reply(FullReply(0, GetStatus, Blank(map[])), 0)]
  {
    hide Answer, Sluggish, RepliesOf, AfterFate, FullReply, Replied, InOrder, Fated;
    var device := new Device(Blank(map[]), Sluggish());
    m := new Master(device, true, true, {}, (_: bytes) => false, false, SOURCES);
    for i := 0 to 256
      invariant m.Core() && m.unanswered == i && m.overruns == 0 && m.device == device && device.serial == i
      invariant fresh(m) && fresh(device)
      invariant device.slave == Blank(map[])
      invariant device.queue == if i == 0 then [] else [Reply(FullReply(0, GetStatus, Blank(map[])), 0)]
    {
      SluggishReplies(i, m.commandCtr, GetStatus, device.slave, i);
      ghost var r, resp, arrived := m.Execute(GetStatus, 5, -1);
    }
  }

  /**
   With 256 commands unanswered, the counter has come round: the late reply to the first is taken for the reply to a
   command the slave has never heard.
   */
  method Collision() returns (m: Master, r: CmdResult, resp: Option<bytes>)
    ensures r == OK && resp == Some(FullReply(0, GetStatus, Blank(map[])))
    ensures m.overruns == 1 && m.device.serial == 257 && m.device.slave == Blank(map[])
  {
    hide Answer, Sluggish, RepliesOf, AfterFate, Replied, InOrder, Fated;
    m := Fall256Behind();
    SluggishReplies(256, 0, GetDaqSize(LIST), m.device.slave, 256);
    ghost var arrived;
    r, resp, arrived := m.Execute(GetDaqSize(LIST), 5, -1);
  }

  /** Refuses the first command, but so late that nobody waits for the reply any more, and obeys from then on. */
  function Belated(): (nat, Command) -> Fate {
    (n: nat, c: Command) => if n == 0 then LateRefusal(0x33) else Obeyed
  }

  lemma BelatedReplies(n: nat, ctr: u8, c: Command, s: Slave, serial: nat)
    ensures RepliesOf(Belated()(n, c), ctr, c, s, serial)
         == [Reply(if n == 0 then [REPLY, 0x33, ctr] else FullReply(ctr, c, s), serial)]
    ensures AfterFate(Belated()(n, c), c, s) == if n == 0 then s else Exec(s, c)
    ensures !Belated()(n, c).Free? && (Belated()(n, c).Delivers() <==> n > 0)
  {
    hide Exec, FullReply;
  }

  /** A question that times out, and the refusal that comes afterwards. */
  method MissRefusal() returns (m: Master, first: CmdResult)
    ensures fresh(m) && fresh(m.device) && m.Core() && m.unanswered == 1 && m.overruns == 0 && first == Timeout
    ensures m.device.policy == Belated() && m.device.slave == Blank(map[]) && m.device.serial == 1 && m.commandCtr == 1
    ensures m.device.queue == [Reply([REPLY, 0x33, 0], 0)]
  {
    hide Answer, Exec, Belated, RepliesOf, AfterFate, Replied, InOrder, Fated;
    var device := new Device(Blank(map[]), Belated());
    m := new Master(device, true, true, {}, (_: bytes) => false, false, SOURCES);
    ghost var resp, arrived;
    BelatedReplies(0, 0, GetStatus, device.slave, 0);
    first, resp, arrived := m.Execute(GetStatus, 5, -1);
  }

  /**
   An error is believed whatever counter it comes with: the late refusal of the first command becomes the result of the
   second, which the slave has obeyed.
   */
  method StrayError() returns (m: Master, r: CmdResult)
    ensures r == Error(0x33) && m.overruns == 0 && m.device.slave == Exec(Blank(map[]), GetDaqSize(LIST))
  {
    hide Answer, Exec, Belated, RepliesOf, AfterFate, Replied, InOrder, Fated;
    m, r := MissRefusal();
    ghost var resp, arrived;
    BelatedReplies(1, 1, GetDaqSize(LIST), m.device.slave, 1);
    r, resp, arrived := m.Execute(GetDaqSize(LIST), 5, -1);
  }

  /** What a slave becomes that obeys one command after the other. */
  function ExecAll(s: Slave, cs: seq<Command>): Slave {
    if cs == [] then s else Exec(ExecAll(s, cs[..|cs| - 1]), cs[|cs| - 1])
  }

  lemma ObedientReplies(n: nat, ctr: u8, c: Command, s: Slave, serial: nat)
    ensures Obedient()(n, c).Obeyed?
            && RepliesOf(Obedient()(n, c), ctr, c, s, serial) == [Reply(FullReply(ctr, c, s), serial)]
    ensures AfterFate(Obedient()(n, c), c, s) == Exec(s, c)
  {
    hide Exec, FullReply;
  }

  /** Replies that are long enough to be looked at. */
  ghost predicate AllWhole(queue: seq<Reply>) {
    forall i :: 0 <= i < |queue| ==> |queue[i].data| >= 3
  }

  /**
   A master that is behind stays behind. Once between 1 and 255 commands are unanswered, a slave that obeys and answers
   every command at once makes no command succeed, however many are sent.
   */
  method StaysBehind(m: Master, cs: seq<Command>) returns (results: seq<CmdResult>)
    requires m.Core() && 0 < m.unanswered < 256 && m.device.policy == Obedient() && AllWhole(m.device.queue)
    modifies m, m.device
    ensures m.Core() && |results| == |cs| && forall i :: 0 <= i < |cs| ==> results[i] != OK
    ensures m.device.slave == ExecAll(old(m.device.slave), cs)
    ensures m.unanswered == old(m.unanswered) && |m.device.queue| == |old(m.device.queue)|
  {
    hide Answer, Exec, Obedient, RepliesOf, AfterFate, Replied, InOrder, Agree;
    results := [];
    m.LinkedIs();
    for i := 0 to |cs|
      invariant m.Core() && |results| == i && forall k :: 0 <= k < i ==> results[k] != OK
      invariant m.device.slave == ExecAll(old(m.device.slave), cs[..i]) && AllWhole(m.device.queue)
      invariant m.unanswered == old(m.unanswered) && |m.device.queue| == |old(m.device.queue)|
    {
      ObedientReplies(m.device.serial, m.commandCtr, cs[i], m.device.slave, m.device.serial);
      var r;
      ghost var resp, arrived;
      r, resp, arrived := m.Execute(cs[i], RES_MIN, -1);
      results := results + [r];
      assert cs[..i + 1][..i] == cs[..i] && cs[..i + 1][i] == cs[i];
    }
    assert cs[..|cs|] == cs;
  }
}
