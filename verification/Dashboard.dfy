/**
  The record store, paging and timer control of the dashboard (docs/index.html).  Record contents
  other than the id are opaque; ids come from the clock and may repeat.
*/
module Dashboard {
  import opened Common

  const MAX_RECORDS := 1000
  const PAGE_SIZE := 10
  const MAX_PAGES := 100

  datatype Record = Record(id: string, content: int)

  /** Array.prototype.slice. */
  function JsSlice<T>(s: seq<T>, start: int, end: int): seq<T> {
    var from := if start < 0 then (if |s| + start < 0 then 0 else |s| + start) else if start > |s| then |s| else start;
    var to := if end < 0 then (if |s| + end < 0 then 0 else |s| + end) else if end > |s| then |s| else end;
    if from < to then s[from..to] else []
  }

  /** read(page) */
  function ReadPage(data: seq<Record>, page: int): seq<Record> {
    JsSlice(data, (page - 1) * PAGE_SIZE, (page - 1) * PAGE_SIZE + PAGE_SIZE)
  }

  /** totalPages: the ceiling, or 1 if that is 0. */
  function TotalPages(data: seq<Record>): nat {
    var pages := (|data| + PAGE_SIZE - 1) / PAGE_SIZE;
    if pages == 0 then 1 else pages
  }

  /** Pages 1 to n, one after the other. */
  function FirstPages(data: seq<Record>, n: nat): seq<Record> {
    if n == 0 then [] else FirstPages(data, n - 1) + ReadPage(data, n)
  }

  lemma PageOfData(data: seq<Record>, n: nat)
    requires n > 0
    ensures n * PAGE_SIZE <= |data| ==>
              data[..(n - 1) * PAGE_SIZE] + ReadPage(data, n) == data[..n * PAGE_SIZE]
    ensures (n - 1) * PAGE_SIZE <= |data| < n * PAGE_SIZE ==> data[..(n - 1) * PAGE_SIZE] + ReadPage(data, n) == data
    ensures |data| <= (n - 1) * PAGE_SIZE ==> ReadPage(data, n) == []
  {
  }

  lemma {:induction false} FirstPagesArePrefix(data: seq<Record>, n: nat)
    ensures FirstPages(data, n) == if n * PAGE_SIZE <= |data| then data[..n * PAGE_SIZE] else data
  {
    if n > 0 {
      FirstPagesArePrefix(data, n - 1);
      PageOfData(data, n);
    }
  }

  /** Reading all pages in order gives the data back exactly. */
  lemma PagesPartitionData(data: seq<Record>)
    ensures FirstPages(data, TotalPages(data)) == data
    ensures forall page: int :: 1 <= page < TotalPages(data) ==> |ReadPage(data, page)| == 10
    ensures |data| <= 1000 ==> TotalPages(data) <= 100
  {
    FirstPagesArePrefix(data, TotalPages(data));
    assert data[..|data|] == data;
  }

  /** Only the page of an empty store is empty, and it has that one page. */
  lemma LastPageIsUsed(data: seq<Record>)
    ensures data == [] ==> TotalPages(data) == 1
    ensures data != [] ==> 1 <= |ReadPage(data, TotalPages(data))| <= 10
  {
  }

  /** A page behind the last one is empty, as after deletions. */
  lemma PagesBehindTheLastAreEmpty(data: seq<Record>, page: int)
    requires page > TotalPages(data)
    ensures ReadPage(data, page) == []
  {
  }

  /** A deletion leaves the page behind the last one exactly if it was the last page, beyond the
      first, and held one record only. */
  lemma DeletionLosesPage(data: seq<Record>, data': seq<Record>, page: int)
    requires |data'| == |data| - 1 && 1 <= page <= TotalPages(data)
    ensures page > TotalPages(data') <==> page == TotalPages(data) > 1 && |ReadPage(data, page)| == 1
  {
  }

  /** findIndex by id. */
  predicate FirstAt(data: seq<Record>, id: string, i: nat) {
    i < |data| && data[i].id == id && forall j :: 0 <= j < i ==> data[j].id != id
  }

  predicate HasId(data: seq<Record>, id: string) {
    exists i :: 0 <= i < |data| && data[i].id == id
  }

  method FindIndex(data: seq<Record>, id: string) returns (i: int)
    ensures i == -1 <==> !HasId(data, id)
    ensures i != -1 ==> 0 <= i && FirstAt(data, id, i)
  {
    for k := 0 to |data|
      invariant forall j :: 0 <= j < k ==> data[j].id != id
    {
      if data[k].id == id {
        return k;
      }
    }
    return -1;
  }

  /** The first record with the id, and no other, has new content. */
  ghost predicate Updated(before: seq<Record>, id: string, content: int, after: seq<Record>) {
    if HasId(before, id) then exists i: nat :: FirstAt(before, id, i) && after == before[i := Record(id, content)]
    else after == before
  }

  /** The first record with the id, and no other, is gone. */
  ghost predicate Deleted(before: seq<Record>, id: string, after: seq<Record>) {
    if HasId(before, id) then exists i: nat :: FirstAt(before, id, i) && after == before[..i] + before[i + 1..]
    else after == before
  }

  /** The data after a new record came in: newest first, the oldest dropped beyond the maximum. */
  function Pushed(data: seq<Record>, r: Record): seq<Record> {
    if |data| + 1 > MAX_RECORDS then ([r] + data)[..|data|] else [r] + data
  }

  /** A new record moves every other one place down, and only the last of 1000 is lost. */
  lemma PushedShifts(data: seq<Record>, r: Record)
    requires |data| <= 1000
    ensures |Pushed(data, r)| == if |data| < 1000 then |data| + 1 else 1000
    ensures Pushed(data, r)[0] == r
    ensures forall i :: 0 <= i < |data| && i < 999 ==> Pushed(data, r)[i + 1] == data[i]
  {
  }

  /** The browser's timers that run: handle and period. */
  type Timers = map<nat, nat>

  class StateManager {
    var data: seq<Record>
    var currentPage: int
    var isMonitoring: bool
    var interval: Option<nat>
    var sampleRate: nat
    // the page around it
    var prevDisabled: bool
    var nextDisabled: bool
    var timers: Timers
    var nextHandle: nat

    /** The buttons as last rendered. */
    ghost predicate Rendered()
      reads this
    {
      && (prevDisabled <==> currentPage == 1)
      && (nextDisabled <==> currentPage >= TotalPages(data))
    }

    /** A sampling timer runs exactly while monitoring; it is the only one and has the current
        sample rate. */
    ghost predicate TimerInv()
      reads this
    {
      && (forall h :: h in timers ==> h < nextHandle)
      && (isMonitoring ==> interval.Some? && timers == map[interval.value := sampleRate])
      && (!isMonitoring ==> timers == map[])
    }

    ghost predicate StoreInv()
      reads this
    {
      |data| <= MAX_RECORDS && 1 <= currentPage <= MAX_PAGES
    }

    ghost predicate Valid()
      reads this
    {
      StoreInv() && TimerInv() && Rendered()
    }

    /** The script's top level: 25 sample records, then the first rendering. */
    constructor (samples: seq<Record>)
      requires |samples| == 25
      ensures Valid() && currentPage == 1 && !isMonitoring && sampleRate == 5000
      ensures |data| == 25 && forall i :: 0 <= i < 25 ==> data[i] == samples[24 - i]
    {
      data, currentPage, isMonitoring, interval, sampleRate := [], 1, false, None, 5000;
      prevDisabled, nextDisabled, timers, nextHandle := false, false, map[], 1;
      new;
      for i := 0 to |samples|
        invariant |data| == i && currentPage == 1 && !isMonitoring && timers == map[] && sampleRate == 5000
        invariant forall j :: 0 <= j < i ==> data[j] == samples[i - 1 - j]
      {
        Create(samples[i]);
      }
      RenderGrid();
    }

    method Create(record: Record)
      requires |data| <= MAX_RECORDS
      modifies this`data
      ensures data == Pushed(old(data), record) && |data| <= MAX_RECORDS
      ensures |data| == if |old(data)| < 1000 then |old(data)| + 1 else 1000
      ensures data[0] == record && forall i :: 0 < i < |data| ==> data[i] == old(data)[i - 1]
    {
      data := [record] + data;
      if |data| > MAX_RECORDS {
        data := data[..|data| - 1];
      }
    }

    method Read(page: int) returns (records: seq<Record>)
      ensures records == ReadPage(data, page)
      ensures 1 <= page ==> |records| <= PAGE_SIZE
      ensures 1 <= page <= TotalPages(data) ==>
        var start := (page - 1) * PAGE_SIZE;
        start <= |data| && records == data[start..if start + PAGE_SIZE < |data| then start + PAGE_SIZE else |data|]
      ensures TotalPages(data) < page ==> records == []
    {
      var start := (page - 1) * PAGE_SIZE;
      records := JsSlice(data, start, start + PAGE_SIZE);
    }

    /** The first record with the id gets new content. */
    method Update(id: string, content: int) returns (found: bool)
      modifies this`data
      ensures found <==> HasId(old(data), id)
      ensures Updated(old(data), id, content, data)
    {
      var i := FindIndex(data, id);
      if i == -1 {
        return false;
      }
      data := data[i := data[i].(content := content)];
      assert FirstAt(old(data), id, i);
      return true;
    }

    /** The first record with the id is taken out. */
    method Delete(id: string) returns (removed: Option<Record>)
      modifies this`data
      ensures removed.Some? <==> HasId(old(data), id)
      ensures removed.Some? ==> removed.value.id == id && removed.value in old(data)
      ensures Deleted(old(data), id, data)
    {
      var i := FindIndex(data, id);
      if i == -1 {
        return None;
      }
      removed := Some(data[i]);
      data := data[..i] + data[i + 1..];
      assert FirstAt(old(data), id, i);
    }

    method RenderGrid()
      modifies this`prevDisabled, this`nextDisabled
      ensures Rendered()
    {
      prevDisabled := currentPage == 1;
      nextDisabled := currentPage >= TotalPages(data);
    }

    // Events.  A disabled button cannot be clicked.

    method ClickPrevious()
      requires Valid()
      modifies this
      ensures Valid() && data == old(data)
      ensures timers == old(timers) && isMonitoring == old(isMonitoring) && sampleRate == old(sampleRate)
      ensures currentPage == if old(currentPage) > 1 then old(currentPage) - 1 else old(currentPage)
    {
      if !prevDisabled {
        ChangePage(-1);
      }
    }

    method ClickNext()
      requires Valid()
      modifies this
      ensures Valid() && data == old(data)
      ensures timers == old(timers) && isMonitoring == old(isMonitoring) && sampleRate == old(sampleRate)
      ensures currentPage == if old(currentPage) < TotalPages(data) then old(currentPage) + 1 else old(currentPage)
    {
      PagesPartitionData(data);
      if !nextDisabled {
        ChangePage(1);
      }
    }

    method ChangePage(dir: int)
      modifies this`currentPage, this`prevDisabled, this`nextDisabled
      ensures currentPage == old(currentPage) + dir && Rendered()
    {
      currentPage := currentPage + dir;
      RenderGrid();
    }

    /** A new sample: a timer tick, or the button that adds a record. */
    method Tick(record: Record)
      requires StoreInv()
      modifies this`data, this`prevDisabled, this`nextDisabled
      ensures StoreInv() && Rendered() && data == Pushed(old(data), record)
    {
      Create(record);
      RenderGrid();
    }

    method TimerFires(handle: nat, record: Record)
      requires Valid() && handle in timers
      modifies this
      ensures Valid() && isMonitoring && data == Pushed(old(data), record)
      ensures timers == old(timers) && currentPage == old(currentPage) && sampleRate == old(sampleRate)
    {
      Tick(record);
    }

    method EditRecord(id: string, content: int)
      requires Valid()
      modifies this
      ensures Valid() && currentPage == old(currentPage) && Updated(old(data), id, content, data)
      ensures timers == old(timers) && isMonitoring == old(isMonitoring) && sampleRate == old(sampleRate)
    {
      var found := Update(id, content);
      if found {
        RenderGrid();
      }
    }

    /** Deletion never touches the current page, which ends up behind the last one exactly if it was
        the last one, beyond the first, and the record deleted was the only one on it. */
    method DeleteRecord(id: string, confirmed: bool)
      requires Valid()
      modifies this
      ensures Valid() && currentPage == old(currentPage)
      ensures if confirmed then Deleted(old(data), id, data) else data == old(data)
      ensures old(currentPage) <= TotalPages(old(data)) ==>
        (currentPage > TotalPages(data) <==>
           confirmed && HasId(old(data), id) && currentPage == TotalPages(old(data)) > 1
           && |ReadPage(old(data), currentPage)| == 1)
      ensures timers == old(timers) && isMonitoring == old(isMonitoring) && sampleRate == old(sampleRate)
    {
      if confirmed {
        var removed := Delete(id);
        RenderGrid();
        if removed.Some? && currentPage <= TotalPages(old(data)) {
          DeletionLosesPage(old(data), data, currentPage);
        }
      }
    }

    method SetInterval(period: nat) returns (handle: nat)
      modifies this`timers, this`nextHandle
      ensures handle == old(nextHandle) && nextHandle == handle + 1
      ensures timers == old(timers)[handle := period]
    {
      handle := nextHandle;
      nextHandle := nextHandle + 1;
      timers := timers[handle := period];
    }

    /** Clearing nothing, or a timer that does not run, has no effect. */
    method ClearInterval(handle: Option<nat>)
      modifies this`timers
      ensures timers == if handle.Some? then old(timers) - {handle.value} else old(timers)
    {
      if handle.Some? {
        timers := timers - {handle.value};
      }
    }

    method ToggleMonitoring(record: Record)
      requires Valid()
      modifies this
      ensures Valid() && isMonitoring == !old(isMonitoring) && sampleRate == old(sampleRate)
      ensures currentPage == old(currentPage)
      ensures data == if isMonitoring then Pushed(old(data), record) else old(data)
    {
      isMonitoring := !isMonitoring;
      if isMonitoring {
        Tick(record);
        var handle := SetInterval(sampleRate);
        interval := Some(handle);
      } else {
        ClearInterval(interval);
      }
    }

    method UpdateInterval(rate: nat)
      requires Valid()
      modifies this
      ensures Valid() && isMonitoring == old(isMonitoring) && sampleRate == rate
      ensures data == old(data) && currentPage == old(currentPage)
    {
      sampleRate := rate;
      if isMonitoring {
        ClearInterval(interval);
        var handle := SetInterval(sampleRate);
        interval := Some(handle);
      }
    }
  }
}
