/** What one step of a transfer, and one of programming a list, does to the slave. */
module CcpSteps {
  import opened Bytes
  import opened CcpLink
  import opened CcpSlave

  // ----- Single steps of the transfers -----

  /** A command may not have reached the slave, unless its answer came back. */
  ghost predicate Took(answered: bool, s: Slave, t: Slave, c: Command) {
    (t == s || t == Exec(s, c)) && (answered ==> t == Exec(s, c))
  }

  lemma AppendChunk(mem: Memory, from: Loc, done: nat, data: bytes, n: nat, chunk: bytes)
    requires |data| <= done && |chunk| <= n
    ensures |data + chunk| == done + n && data == Read(mem, from, done) && Agree(chunk, Read(mem, from.Plus(done), n))
        ==> data + chunk == Read(mem, from, done + n)
  {
    ReadConcat(mem, from, done, n);
    if |chunk| == n && Agree(chunk, Read(mem, from.Plus(done), n)) {
      assert chunk == Read(mem, from.Plus(done), n);
    }
  }

  lemma StoredNothing(s: Slave)
    ensures Stored(s, []) == s
  {
  }

  lemma StoreNothing(mem: Memory, from: Loc, data: bytes)
    ensures Store(mem, from, data[..0]) == mem
  {
  }

  lemma StoredChunk(s: Slave, data: bytes, done: nat, n: nat)
    requires done + n <= |data|
    ensures Stored(Stored(s, data[..done]), data[done..done + n]) == Stored(s, data[..done + n])
  {
    StoreConcat(s.mem, s.mta, data[..done], data[done..done + n]);
    assert data[..done] + data[done..done + n] == data[..done + n];
  }

  /** Numbers that survive the narrowing to a byte on the wire. */
  ghost predicate FitByte(list: DaqList) {
    && list.number < 256 && |list.odts| <= 256
    && forall b :: 0 <= b < |list.odts| ==> |list.odts[b]| <= 256
  }

  ghost predicate FitBytes(lists: seq<DaqList>) {
    && (forall i :: 0 <= i < |lists| ==> FitByte(lists[i]))
    && (forall i, j :: 0 <= i < j < |lists| ==> lists[i].number != lists[j].number)
  }

  lemma FitAt(lists: seq<DaqList>, i: nat)
    requires FitBytes(lists) && i < |lists|
    ensures FitByte(lists[i]) && lists[i].number < 256
  {
  }

  // ----- Programming lists -----

  /** The elements before element `n` of table `b` are written, and no element outside the list has come or gone. */
  ghost predicate Written(before: Daq, after: Daq, list: DaqList, b: nat, n: nat) {
    && SameExcept(before, after, {list.number})
    && (forall slot: Slot :: slot.list == list.number && !InTable(list, slot) ==> (slot in after <==> slot in before))
    && (forall slot :: InTable(list, slot) && (slot.odt < b || (slot.odt == b && slot.element < n)) ==>
          slot in after && after[slot] == list.odts[slot.odt][slot.element])
  }

  lemma WrittenNothing(daq: Daq, list: DaqList)
    ensures Written(daq, daq, list, 0, 0)
  {
  }

  lemma WrittenOne(before: Daq, daq: Daq, list: DaqList, b: nat, n: nat)
    requires Written(before, daq, list, b, n) && InTable(list, Slot(list.number, b, n))
    ensures Written(before, daq[Slot(list.number, b, n) := list.odts[b][n]], list, b, n + 1)
  {
  }

  lemma WrittenLess(before: Daq, daq: Daq, list: DaqList, b: nat, n: nat)
    requires Written(before, daq, list, b, n) || Written(before, daq, list, b, n + 1)
    ensures Written(before, daq, list, 0, 0)
  {
  }

  lemma WrittenRow(before: Daq, daq: Daq, list: DaqList, b: nat)
    requires b < |list.odts| && Written(before, daq, list, b, |list.odts[b]|)
    ensures Written(before, daq, list, b + 1, 0)
  {
  }

  lemma WrittenAll(before: Daq, daq: Daq, list: DaqList)
    requires Written(before, daq, list, |list.odts|, 0)
    ensures HasList(daq, list)
  {
  }

  lemma ClearTwice(daq: Daq, list: nat)
    ensures Clear(Clear(daq, list), list) == Clear(daq, list)
  {
  }

  /** A list after programming: all its elements, and beside them nothing or what was there before. */
  ghost predicate Programmed(before: Daq, after: Daq, list: DaqList, cleared: bool) {
    && HasList(after, list)
    && forall slot: Slot :: slot.list == list.number && !InTable(list, slot) ==>
         (slot in after <==> slot in before && !cleared)
  }

  /** A programmed list is exact if it was emptied first, or if nothing else was in it. */
  lemma ProgrammedIsExact(before: Daq, after: Daq, list: DaqList, cleared: bool)
    requires Programmed(before, after, list, cleared)
    ensures IsExactly(after, list)
       <==> cleared || forall slot :: slot in before && slot.list == list.number ==> InTable(list, slot)
  {
    if !cleared {
      StaleElementsStay(before, after, list);
    }
  }

  lemma ProgramList(before: Daq, asked: Daq, after: Daq, list: DaqList, emptied: bool)
    requires asked == (if emptied then Clear(before, list.number) else before)
    requires Written(asked, after, list, 0, 0) && HasList(after, list)
    ensures Programmed(before, after, list, emptied) && SameExcept(before, after, {list.number})
  {
  }

  lemma KeepProgrammed(before: Daq, daq: Daq, after: Daq, list: DaqList, cleared: bool, others: set<nat>)
    requires Programmed(before, daq, list, cleared) && SameExcept(daq, after, others) && list.number !in others
    ensures Programmed(before, after, list, cleared)
  {
  }

  lemma SameTwice(a: Daq, b: Daq, c: Daq, s: set<nat>, t: set<nat>)
    requires SameExcept(a, b, s) && SameExcept(b, c, t)
    ensures SameExcept(a, c, s + t)
  {
  }

  lemma ProgramLater(before: Daq, daq: Daq, after: Daq, list: DaqList, cleared: bool, others: set<nat>)
    requires SameExcept(before, daq, others) && list.number !in others && Programmed(daq, after, list, cleared)
    ensures Programmed(before, after, list, cleared)
  {
    hide HasList;
  }

  ghost function Numbers(lists: seq<DaqList>, n: nat): set<nat>
    requires n <= |lists|
  {
    set j | 0 <= j < n :: lists[j].number
  }

  /** The first `n` lists are programmed, and no other list is touched. */
  ghost predicate Programming(before: Daq, after: Daq, lists: seq<DaqList>, n: nat, cleared: set<nat>)
    requires n <= |lists|
  {
    && SameExcept(before, after, Numbers(lists, n)) && cleared <= Numbers(lists, n)
    && forall j :: 0 <= j < n ==> Programmed(before, after, lists[j], lists[j].number in cleared)
  }

  ghost predicate AllProgrammed(before: Daq, after: Daq, lists: seq<DaqList>, cleared: set<nat>) {
    forall i :: 0 <= i < |lists| ==> Programmed(before, after, lists[i], lists[i].number in cleared)
  }

  lemma ProgrammingNothing(daq: Daq, lists: seq<DaqList>)
    ensures Numbers(lists, 0) == {} && Programming(daq, daq, lists, 0, {})
  {
  }

  lemma ProgrammingDone(before: Daq, after: Daq, lists: seq<DaqList>, cleared: set<nat>)
    requires Programming(before, after, lists, |lists|, cleared)
    ensures AllProgrammed(before, after, lists, cleared)
  {
  }

  /** Programming one more list keeps those before it. */
  lemma ProgramOne(before: Daq, daq: Daq, after: Daq, lists: seq<DaqList>, i: nat, cleared: set<nat>, emptied: bool)
    requires FitBytes(lists) && i < |lists| && Programming(before, daq, lists, i, cleared)
    requires Programmed(daq, after, lists[i], emptied) && SameExcept(daq, after, {lists[i].number})
    ensures Programming(before, after, lists, i + 1, if emptied then cleared + {lists[i].number} else cleared)
  {
    hide Written, HasList, Programmed, SameExcept, FitByte;
    var done := Numbers(lists, i);
    SameTwice(before, daq, after, done, {lists[i].number});
    NumbersGrow(lists, i);
    ProgramLater(before, daq, after, lists[i], emptied, done);
    forall j | 0 <= j < i
      ensures Programmed(before, after, lists[j], lists[j].number in cleared) && lists[j].number != lists[i].number
    {
      KeepProgrammed(before, daq, after, lists[j], lists[j].number in cleared, {lists[i].number});
    }
  }

  lemma NumbersGrow(lists: seq<DaqList>, i: nat)
    requires i < |lists|
    ensures Numbers(lists, i + 1) == Numbers(lists, i) + {lists[i].number}
  {
  }

  /** The slave has every configured element, and lists that gave an answer hold nothing else. */
  ghost predicate InStep(daq: Daq, lists: seq<DaqList>, unheard: set<nat>) {
    && HasLists(daq, lists)
    && forall i :: 0 <= i < |lists| && lists[i].number !in unheard ==> IsExactly(daq, lists[i])
  }

  lemma NoneUnheard(lists: seq<DaqList>, heard: set<nat>)
    ensures Numbers(lists, |lists|) <= heard ==> Numbers(lists, |lists|) - heard == {}
  {
  }

  /** After programming, the slave has every element, and lists that were heard to answer hold nothing else. */
  lemma ProgrammedInStep(before: Daq, after: Daq, lists: seq<DaqList>, cleared: set<nat>, heard: set<nat>,
                         unheard: set<nat>)
    requires AllProgrammed(before, after, lists, cleared) && heard <= cleared
             && unheard == Numbers(lists, |lists|) - heard
    ensures InStep(after, lists, unheard)
  {
    hide HasList, IsExactly, Programmed;
    forall i | 0 <= i < |lists|
      ensures HasList(after, lists[i]) && (lists[i].number !in unheard ==> IsExactly(after, lists[i])) {
      ProgrammedHas(before, after, lists[i], lists[i].number in cleared);
      ProgrammedIsExact(before, after, lists[i], lists[i].number in cleared);
      assert lists[i].number in Numbers(lists, |lists|);
    }
  }

  lemma ProgrammedHas(before: Daq, after: Daq, list: DaqList, cleared: bool)
    requires Programmed(before, after, list, cleared)
    ensures HasList(after, list)
  {
  }

  /** If every list answered, all lists are exact. */
  lemma InStepIsExact(daq: Daq, lists: seq<DaqList>, unheard: set<nat>)
    ensures InStep(daq, lists, unheard) ==> HasLists(daq, lists) && (unheard == {} ==> AllExact(daq, lists))
    ensures AllExact(daq, lists) ==> HasLists(daq, lists)
  {
  }

  lemma NoLists(daq: Daq, lists: seq<DaqList>)
    requires lists == []
    ensures HasLists(daq, lists) && AllExact(daq, lists)
  {
  }
}
