/** The slave of the CAN calibration protocol: memory, transfer address and data acquisition lists (CCP 2.1). */
module CcpSlave {
  import opened Bytes
  import opened Wrappers

  /** An address with its extension. */
  datatype Loc = Loc(extension: nat, address: nat) {
    function Plus(n: nat): Loc {
      Loc(extension, address + n)
    }
  }

  /** An element of an object descriptor table of a list. */
  datatype Slot = Slot(list: nat, odt: nat, element: nat)

  datatype OdtEntry = OdtEntry(size: u8, loc: Loc)

  datatype StartMode = Stop | Start | Select

  datatype Command =
    | Connect | GetCcpVersion | ExchangeId | GetStatus | SetStatus(state: u8) | GetActivePage
    | GetSeed | Unlock(key: bytes)
    | Disconnect(endOfSession: bool)
    | SetMta(number: nat, loc: Loc)
    | Dnload(data: bytes) | Dnload6(data: bytes) | Program(data: bytes) | Program6(data: bytes)
    | Upload(size: nat) | ShortUp(size: nat, loc: Loc)
    | GetDaqSize(list: nat) | SetDaqPtr(slot: Slot) | WriteDaq(entry: OdtEntry)
    | StartStop(mode: StartMode, list: nat) | StartStopAll(mode: StartMode)
  {
    /** The commands after which lists transmit, or are prepared to. */
    predicate IsStart() {
      (StartStop? || StartStopAll?) && mode != Stop
    }

    predicate Stores() {
      Dnload? || Dnload6? || Program? || Program6?
    }

    predicate ChangesLists() {
      GetDaqSize? || WriteDaq? || Disconnect?
    }
  }

  type Memory = map<Loc, u8>
  type Daq = map<Slot, OdtEntry>

  /**
   Memory, transfer address and identity text; lists, the element to write next, and which lists run or wait to;
   what the slave tells in answer to questions about itself.
   */
  datatype Slave =
    Slave(mem: Memory, mta: Loc, id: Loc, daq: Daq, pointer: Option<Slot>, running: set<nat>, prepared: set<nat>,
          tells: map<Command, bytes>)

  function At(mem: Memory, loc: Loc): u8 {
    if loc in mem then mem[loc] else 0
  }

  function Read(mem: Memory, loc: Loc, n: nat): (s: bytes)
    ensures |s| == n
  {
    seq(n, i requires 0 <= i => At(mem, loc.Plus(i)))
  }

  function Store(mem: Memory, loc: Loc, data: bytes): Memory
    decreases |data|
  {
    if data == [] then mem else Store(mem[loc := data[0]], loc.Plus(1), data[1..])
  }

  /** Taking up or asking for the size of a list empties it. */
  function Clear(daq: Daq, list: nat): Daq {
    map slot | slot in daq && slot.list != list :: daq[slot]
  }

  /** The slave after it has accepted a command. */
  function Exec(s: Slave, c: Command): Slave {
    match c
    case SetMta(number, loc) => if number == 0 then s.(mta := loc) else s
    case Dnload(data) => Stored(s, data)
    case Dnload6(data) => Stored(s, data)
    case Program(data) => Stored(s, data)
    case Program6(data) => Stored(s, data)
    case Upload(n) => s.(mta := s.mta.Plus(n))
    case ExchangeId => s.(mta := s.id)
    case SetStatus(state) => s.(tells := s.tells[GetStatus := [state]])
    case GetDaqSize(list) =>
      s.(daq := Clear(s.daq, list), running := s.running - {list}, prepared := s.prepared - {list})
    case SetDaqPtr(slot) => s.(pointer := Some(slot))
    case WriteDaq(entry) => if s.pointer.None? then s else s.(daq := s.daq[s.pointer.value := entry])
    case Disconnect(endOfSession) =>
      if endOfSession then s.(daq := map[], pointer := None, running := {}, prepared := {}) else s
    case StartStop(mode, list) =>
      if mode == Start then s.(running := s.running + {list})
      else if mode == Select then s.(prepared := s.prepared + {list})
      else s.(running := s.running - {list}, prepared := s.prepared - {list})
    case StartStopAll(mode) =>
      if mode == Start then s.(running := s.running + s.prepared, prepared := {}) else s.(running := {}, prepared := {})
    case _ => s
  }

  function Stored(s: Slave, data: bytes): Slave {
    s.(mem := Store(s.mem, s.mta, data), mta := s.mta.Plus(|data|))
  }

  lemma ExecKeeps(s: Slave, c: Command)
    ensures !c.Stores() ==> Exec(s, c).mem == s.mem
    ensures !c.ChangesLists() ==> Exec(s, c).daq == s.daq
    ensures (c.Dnload? || c.Dnload6? || c.Program? || c.Program6?) ==> Exec(s, c) == Stored(s, c.data)
  {
  }

  lemma ExecPlain(s: Slave)
    ensures Exec(s, Connect) == s && Exec(s, Disconnect(true)).daq == map[] && Exec(s, Disconnect(false)) == s
    ensures forall end :: Exec(s, Disconnect(end)).mem == s.mem
  {
  }

  /** The memory or the knowledge a reply has to carry. */
  function Answer(s: Slave, c: Command): bytes {
    match c
    case Upload(n) => Read(s.mem, s.mta, n)
    case ShortUp(n, loc) => Read(s.mem, loc, n)
    case _ => if c in s.tells then s.tells[c] else []
  }

  // ----- Memory -----

  lemma {:induction false} StoreConcat(mem: Memory, loc: Loc, a: bytes, b: bytes)
    ensures Store(mem, loc, a + b) == Store(Store(mem, loc, a), loc.Plus(|a|), b)
    decreases |a|
  {
    if a == [] {
      assert a + b == b;
    } else {
      assert (a + b)[1..] == a[1..] + b;
      StoreConcat(mem[loc := a[0]], loc.Plus(1), a[1..], b);
    }
  }

  /** Storing changes the addressed range to the data, and nothing else. */
  lemma {:induction false} StoreIsExact(mem: Memory, loc: Loc, data: bytes, l: Loc)
    ensures At(Store(mem, loc, data), l)
         == if l.extension == loc.extension && loc.address <= l.address < loc.address + |data|
            then data[l.address - loc.address] else At(mem, l)
    decreases |data|
  {
    if data != [] {
      StoreIsExact(mem[loc := data[0]], loc.Plus(1), data[1..], l);
    }
  }

  /** Stored data reads back. */
  lemma ReadStored(mem: Memory, loc: Loc, data: bytes)
    ensures Read(Store(mem, loc, data), loc, |data|) == data
  {
    forall i | 0 <= i < |data| ensures At(Store(mem, loc, data), loc.Plus(i)) == data[i] {
      StoreIsExact(mem, loc, data, loc.Plus(i));
    }
  }

  lemma ReadConcat(mem: Memory, loc: Loc, m: nat, n: nat)
    ensures Read(mem, loc, m + n) == Read(mem, loc, m) + Read(mem, loc.Plus(m), n)
  {
    forall i | m <= i < m + n ensures loc.Plus(i) == loc.Plus(m).Plus(i - m) {
    }
  }

  // ----- Lists -----

  /** A list to be programmed: its number and the elements of its tables. */
  datatype DaqList = DaqList(number: nat, odts: seq<seq<OdtEntry>>)

  ghost predicate InTable(list: DaqList, slot: Slot) {
    slot.list == list.number && slot.odt < |list.odts| && slot.element < |list.odts[slot.odt]|
  }

  /** Every element of a list is in the slave. */
  ghost predicate HasList(daq: Daq, list: DaqList) {
    forall slot :: InTable(list, slot) ==> slot in daq && daq[slot] == list.odts[slot.odt][slot.element]
  }

  ghost predicate HasLists(daq: Daq, lists: seq<DaqList>) {
    forall i :: 0 <= i < |lists| ==> HasList(daq, lists[i])
  }

  /** The slave's list has those elements and no others. */
  ghost predicate IsExactly(daq: Daq, list: DaqList) {
    HasList(daq, list) && forall slot :: slot in daq && slot.list == list.number ==> InTable(list, slot)
  }

  ghost predicate AllExact(daq: Daq, lists: seq<DaqList>) {
    forall i :: 0 <= i < |lists| ==> IsExactly(daq, lists[i])
  }

  /** Two states that differ at most in some lists. */
  ghost predicate SameExcept(a: Daq, b: Daq, lists: set<nat>) {
    forall slot: Slot :: slot.list !in lists ==> (slot in a <==> slot in b) && (slot in a ==> a[slot] == b[slot])
  }

  /** A list that was not asked for its size keeps what it held, so it is exact only if that was configured too. */
  lemma StaleElementsStay(before: Daq, after: Daq, list: DaqList)
    requires HasList(after, list)
    requires forall slot: Slot :: slot.list == list.number && !InTable(list, slot) ==>
              (slot in after <==> slot in before)
    ensures IsExactly(after, list) <==> forall slot :: slot in before && slot.list == list.number ==>
              InTable(list, slot)
  {
  }

  /** Ending the session loses every configured element. */
  lemma EndOfSessionForgets(s: Slave, lists: seq<DaqList>)
    ensures HasLists(Exec(s, Disconnect(true)).daq, lists)
       <==> forall i, j :: 0 <= i < |lists| && 0 <= j < |lists[i].odts| ==> lists[i].odts[j] == []
  {
    var daq := Exec(s, Disconnect(true)).daq;
    if HasLists(daq, lists) {
      forall i, j | 0 <= i < |lists| && 0 <= j < |lists[i].odts| ensures lists[i].odts[j] == [] {
        assert HasList(daq, lists[i]);
        assert !InTable(lists[i], Slot(lists[i].number, j, 0));
      }
    }
  }
}
