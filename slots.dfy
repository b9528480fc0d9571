/**
 * The slot store and the slot controller's four operations on it: the query
 * by turf and date, regeneration of a turf's slots for a date, the status
 * override and the deletion of one slot.
 */
module Slots {
  import opened Lexicographic
  import opened Clock
  import opened TimeGrid

  datatype Option<T> = None | Some(value: T)

  datatype Status = Available | Booked | Blocked

  /** A persisted slot record; `id` stands for the store's document id. */
  datatype Slot = Slot(id: nat, turf: string, date: string, startTime: string, endTime: string,
                       status: Status, blockedBy: Option<string>)

  /** The part of a turf's configuration that slot generation reads. */
  datatype Turf = Turf(slotDurationMinutes: int, bufferMinutes: int)

  /** An HTTP outcome: 200/201 with a value, 400 or 404 with a message. */
  datatype Response<T> = Ok(value: T) | BadRequest(message: string) | NotFound(message: string)

  /** The body of a successful generation: the number of slots created and the slots. */
  datatype Generated = Generated(count: nat, slots: seq<Slot>)

  const ParamsRequired := "turfId and date are required"
  const TurfNotFound := "Turf not found"
  const SlotNotFound := "Slot not found"

  /** A query parameter that is absent or empty, which the controller treats as missing. */
  predicate Missing(p: Option<string>)
  {
    p.None? || p.value == ""
  }

  /**
   * The slots that `keep` accepts, in their original order; that order is
   * stated by KeepAppend, KeepAll and KeepNone.
   */
  function Keep(ss: seq<Slot>, keep: Slot -> bool): (r: seq<Slot>)
    ensures forall s :: s in r <==> s in ss && keep(s)
    ensures multiset(r) <= multiset(ss)
    ensures |r| <= |ss|
  {
    if ss == [] then []
    else
      assert ss == [ss[0]] + ss[1..];
      (if keep(ss[0]) then [ss[0]] else []) + Keep(ss[1..], keep)
  }

  /** The slots of one turf on one date. */
  function ForPair(ss: seq<Slot>, turf: string, date: string): seq<Slot>
  {
    Keep(ss, (s: Slot) => s.turf == turf && s.date == date)
  }

  /** Every slot except those of one turf on one date. */
  function ExceptPair(ss: seq<Slot>, turf: string, date: string): seq<Slot>
  {
    Keep(ss, (s: Slot) => !(s.turf == turf && s.date == date))
  }

  /** Every slot except the one with the given id. */
  function RemoveId(ss: seq<Slot>, id: nat): seq<Slot>
  {
    Keep(ss, (s: Slot) => s.id != id)
  }

  predicate HasId(ss: seq<Slot>, id: nat)
  {
    exists s :: s in ss && s.id == id
  }

  /** Position of the first slot with the given id, or the length when there is none. */
  function IndexOf(ss: seq<Slot>, id: nat): (k: nat)
    ensures k <= |ss|
    ensures k < |ss| <==> HasId(ss, id)
    ensures k < |ss| ==> ss[k].id == id
    ensures forall i :: 0 <= i < k ==> ss[i].id != id
  {
    if ss == [] then 0
    else if ss[0].id == id then 0
    else
      var k := IndexOf(ss[1..], id);
      assert forall s :: s in ss[1..] ==> s in ss;
      assert HasId(ss[1..], id) ==> HasId(ss, id);
      assert HasId(ss, id) ==> HasId(ss[1..], id) by {
        if HasId(ss, id) {
          var s :| s in ss && s.id == id;
          assert s != ss[0];
          assert s in ss[1..];
        }
      }
      1 + k
  }

  /** Two records may both be stored: different ids, and different start times within one turf and date. */
  predicate Compatible(a: Slot, b: Slot)
  {
    a.id != b.id && (a.turf == b.turf && a.date == b.date ==> a.startTime != b.startTime)
  }

  /** The store's keys: ids are unique, and so is (turf, date, startTime). */
  predicate Keyed(ss: seq<Slot>)
  {
    forall i, j :: 0 <= i < j < |ss| ==> Compatible(ss[i], ss[j])
  }

  /** The record for `s` after a status override aimed at `id`. */
  function Patched(s: Slot, id: nat, status: Status, blockedBy: Option<string>): Slot
  {
    if s.id == id then s.(status := status, blockedBy := blockedBy) else s
  }

  /** The records a generation inserts, ids handed out from `firstId` on. */
  function Records(grid: seq<TimeRange>, turf: string, date: string, firstId: nat): (r: seq<Slot>)
    ensures |r| == |grid|
  {
    seq(|grid|, i requires 0 <= i < |grid| =>
      Slot(firstId + i, turf, date, grid[i].startTime, grid[i].endTime, Available, None))
  }

  /** What generation needs from its input once the turf exists. */
  predicate GenerationInput(turf: Turf, startTime: string, endTime: string)
  {
    ValidTime(startTime) && ValidTime(endTime)
    && Advances(turf.slotDurationMinutes, turf.bufferMinutes)
  }

  // ----- sorting by start time, as the query's ascending sort does -----

  predicate SortedByStart(ss: seq<Slot>)
  {
    forall i, j :: 0 <= i < j < |ss| ==> StrLe(ss[i].startTime, ss[j].startTime)
  }

  lemma SortedCons(x: Slot, ss: seq<Slot>)
    requires SortedByStart(ss)
    requires forall y :: y in ss ==> StrLe(x.startTime, y.startTime)
    ensures SortedByStart([x] + ss)
  {
    var r := [x] + ss;
    forall i, j | 0 <= i < j < |r| ensures StrLe(r[i].startTime, r[j].startTime) {
      assert r[j] == ss[j - 1];
      if i == 0 {
        assert ss[j - 1] in ss;
      } else {
        assert r[i] == ss[i - 1];
      }
    }
  }

  lemma SortedTail(ss: seq<Slot>)
    requires ss != [] && SortedByStart(ss)
    ensures SortedByStart(ss[1..])
  {
    forall i, j | 0 <= i < j < |ss[1..]|
      ensures StrLe(ss[1..][i].startTime, ss[1..][j].startTime)
    {
      assert ss[1..][i] == ss[i + 1] && ss[1..][j] == ss[j + 1];
    }
  }

  /** `x` goes in front when it sorts at or before the first element. */
  lemma InsertFront(x: Slot, ss: seq<Slot>)
    requires ss != [] && SortedByStart(ss) && StrLe(x.startTime, ss[0].startTime)
    ensures SortedByStart([x] + ss)
  {
    forall y | y in ss ensures StrLe(x.startTime, y.startTime) {
      var j :| 0 <= j < |ss| && ss[j] == y;
      if j > 0 {
        StrLeTransitive(x.startTime, ss[0].startTime, y.startTime);
      }
    }
    SortedCons(x, ss);
  }

  /** Otherwise the first element stays in front of the rest with `x` inserted. */
  lemma InsertBehind(x: Slot, ss: seq<Slot>, rest: seq<Slot>)
    requires ss != [] && SortedByStart(ss) && !StrLe(x.startTime, ss[0].startTime)
    requires SortedByStart(rest) && multiset(rest) == multiset(ss[1..]) + multiset{x}
    ensures SortedByStart([ss[0]] + rest)
    ensures multiset([ss[0]] + rest) == multiset(ss) + multiset{x}
  {
    StrLeTotal(x.startTime, ss[0].startTime);
    forall y | y in rest ensures StrLe(ss[0].startTime, y.startTime) {
      assert y in multiset(rest);
      if y != x {
        assert y in multiset(ss[1..]);
        var j :| 0 <= j < |ss[1..]| && ss[1..][j] == y;
        assert ss[j + 1] == y;
      }
    }
    SortedCons(ss[0], rest);
    assert ss == [ss[0]] + ss[1..];
  }

  function InsertByStart(x: Slot, ss: seq<Slot>): (r: seq<Slot>)
    requires SortedByStart(ss)
    ensures SortedByStart(r)
    ensures multiset(r) == multiset(ss) + multiset{x}
  {
    if ss == [] then [x]
    else if StrLe(x.startTime, ss[0].startTime) then
      InsertFront(x, ss);
      assert ss == [ss[0]] + ss[1..];
      [x] + ss
    else
      SortedTail(ss);
      var rest := InsertByStart(x, ss[1..]);
      InsertBehind(x, ss, rest);
      [ss[0]] + rest
  }

  /** Insertion sort by start time. */
  function SortByStart(ss: seq<Slot>): (r: seq<Slot>)
    ensures SortedByStart(r)
    ensures multiset(r) == multiset(ss)
  {
    if ss == [] then []
    else
      assert ss == [ss[0]] + ss[1..];
      InsertByStart(ss[0], SortByStart(ss[1..]))
  }

  /** Both are readable times, and the first is not later in the day. */
  predicate NotLater(a: string, b: string)
  {
    ValidTime(a) && ValidTime(b) && Parse(a) <= Parse(b)
  }

  /**
   * When every start time is written "HH:MM", ascending string order is
   * ascending time order; this is why sorting by the string is sound.
   */
  lemma SortedIsChronological(ss: seq<Slot>)
    requires SortedByStart(ss)
    requires forall i :: 0 <= i < |ss| ==> Canonical(ss[i].startTime)
    ensures forall i, j :: 0 <= i < j < |ss| ==> NotLater(ss[i].startTime, ss[j].startTime)
  {
    forall i, j | 0 <= i < j < |ss|
      ensures NotLater(ss[i].startTime, ss[j].startTime)
    {
      var a, b := ss[i].startTime, ss[j].startTime;
      FormatOrder(Parse(a), Parse(b));
    }
  }

  /** The query's result holds exactly the slots of the turf and date asked for. */
  lemma QueryExact(ss: seq<Slot>, turf: string, date: string)
    ensures forall s :: s in SortByStart(ForPair(ss, turf, date)) <==>
              s in ss && s.turf == turf && s.date == date
  {
    var matching := ForPair(ss, turf, date);
    var sorted := SortByStart(matching);
    forall s ensures s in sorted <==> s in matching {
      assert s in sorted <==> s in multiset(sorted);
      assert s in matching <==> s in multiset(matching);
    }
  }

  /**
   * A start that is not zero-padded sorts out of place: "6:00" is earlier in
   * the day than "07:00" but sorts after it as a string.
   */
  lemma UnpaddedStartMisorders()
    ensures ValidTime("6:00") && ValidTime("07:00")
    ensures Parse("6:00") < Parse("07:00")
    ensures StrLe("07:00", "6:00") && !StrLe("6:00", "07:00")
  {
    assert ColonIndex("6:00") == 1;
    assert ColonIndex("07:00") == 2;
    assert "07:00"[..2] == [ '0', '7' ] && "07:00"[3..] == ['0', '0'];
    assert "6:00"[..1] == ['6'] && "6:00"[2..] == ['0', '0'];
  }

  // ----- facts about filtering -----

  lemma {:induction false} KeepAppend(a: seq<Slot>, b: seq<Slot>, keep: Slot -> bool)
    ensures Keep(a + b, keep) == Keep(a, keep) + Keep(b, keep)
  {
    if a == [] {
      assert a + b == b;
    } else {
      assert (a + b)[1..] == a[1..] + b;
      assert (a + b)[0] == a[0];
      KeepAppend(a[1..], b, keep);
      AppendAssociative(if keep(a[0]) then [a[0]] else [], Keep(a[1..], keep), Keep(b, keep));
    }
  }

  lemma {:induction false} KeepAll(a: seq<Slot>, keep: Slot -> bool)
    requires forall i :: 0 <= i < |a| ==> keep(a[i])
    ensures Keep(a, keep) == a
  {
    if a != [] {
      assert forall i :: 0 <= i < |a[1..]| ==> a[1..][i] == a[i + 1];
      KeepAll(a[1..], keep);
      assert a == [a[0]] + a[1..];
    }
  }

  lemma KeepNone(a: seq<Slot>, keep: Slot -> bool)
    requires forall s :: s in a ==> !keep(s)
    ensures Keep(a, keep) == []
  {
  }

  /** Filtering twice, when the second filter implies the first, is filtering once. */
  lemma {:induction false} KeepKeep(a: seq<Slot>, first: Slot -> bool, second: Slot -> bool)
    requires forall s :: s in a && second(s) ==> first(s)
    ensures Keep(Keep(a, first), second) == Keep(a, second)
  {
    if a != [] {
      assert forall s :: s in a[1..] ==> s in a;
      assert a[0] in a;
      KeepKeep(a[1..], first, second);
      var head := if first(a[0]) then [a[0]] else [];
      KeepAppend(head, Keep(a[1..], first), second);
      if first(a[0]) {
        assert Keep(head, second) == if second(a[0]) then [a[0]] else [] by {
          assert head[1..] == [];
        }
      }
    }
  }

  lemma KeyedCons(x: Slot, ss: seq<Slot>)
    requires Keyed(ss)
    requires forall s :: s in ss ==> Compatible(x, s)
    ensures Keyed([x] + ss)
  {
    var r := [x] + ss;
    forall i, j | 0 <= i < j < |r| ensures Compatible(r[i], r[j]) {
      assert r[j] == ss[j - 1];
      if i == 0 {
        assert ss[j - 1] in ss;
      } else {
        assert r[i] == ss[i - 1];
      }
    }
  }

  /** Deleting records keeps the store's keys unique. */
  lemma {:induction false} KeepKeyed(a: seq<Slot>, keep: Slot -> bool)
    requires Keyed(a)
    ensures Keyed(Keep(a, keep))
  {
    if a != [] {
      assert Keyed(a[1..]) by {
        forall i, j | 0 <= i < j < |a[1..]| ensures Compatible(a[1..][i], a[1..][j]) {
          assert a[1..][i] == a[i + 1] && a[1..][j] == a[j + 1];
        }
      }
      KeepKeyed(a[1..], keep);
      var rest := Keep(a[1..], keep);
      if keep(a[0]) {
        forall s | s in rest ensures Compatible(a[0], s) {
          var j :| 0 <= j < |a[1..]| && a[1..][j] == s;
          assert a[j + 1] == s;
        }
        KeyedCons(a[0], rest);
      }
    }
  }

  lemma KeyedAppend(a: seq<Slot>, b: seq<Slot>)
    requires Keyed(a) && Keyed(b)
    requires forall x, y :: x in a && y in b ==> Compatible(x, y)
    ensures Keyed(a + b)
  {
    var r := a + b;
    forall i, j | 0 <= i < j < |r| ensures Compatible(r[i], r[j]) {
      if j < |a| {
        assert r[i] == a[i] && r[j] == a[j];
      } else if i < |a| {
        assert r[i] == a[i] && r[j] == b[j - |a|];
        assert a[i] in a && b[j - |a|] in b;
      } else {
        assert r[i] == b[i - |a|] && r[j] == b[j - |a|];
      }
    }
  }

  // ----- the properties of each store operation, on values -----

  /**
   * Regeneration: afterwards the slots of the regenerated turf and date are
   * exactly the new records, in insertion order.
   */
  lemma RegeneratedPair(prior: seq<Slot>, created: seq<Slot>, turf: string, date: string)
    requires forall s :: s in created ==> s.turf == turf && s.date == date
    ensures ForPair(ExceptPair(prior, turf, date) + created, turf, date) == created
  {
    var kept := ExceptPair(prior, turf, date);
    var f := (s: Slot) => s.turf == turf && s.date == date;
    KeepAppend(kept, created, f);
    KeepNone(kept, f);
    KeepAll(created, f);
  }

  /** Regeneration leaves the slots of every other turf or date as they were. */
  lemma RegeneratedOthers(prior: seq<Slot>, created: seq<Slot>, turf: string, date: string,
                          otherTurf: string, otherDate: string)
    requires forall s :: s in created ==> s.turf == turf && s.date == date
    requires otherTurf != turf || otherDate != date
    ensures ForPair(ExceptPair(prior, turf, date) + created, otherTurf, otherDate)
         == ForPair(prior, otherTurf, otherDate)
  {
    var kept := ExceptPair(prior, turf, date);
    var f := (s: Slot) => s.turf == otherTurf && s.date == otherDate;
    KeepAppend(kept, created, f);
    KeepNone(created, f);
    KeepKeep(prior, (s: Slot) => !(s.turf == turf && s.date == date), f);
    AppendEmpty(ForPair(kept, otherTurf, otherDate));
  }

  /** With unique ids, removing by id drops exactly the record at its position. */
  lemma RemoveIdAt(ss: seq<Slot>, k: nat)
    requires Keyed(ss) && k < |ss|
    ensures RemoveId(ss, ss[k].id) == ss[..k] + ss[k + 1..]
    ensures |RemoveId(ss, ss[k].id)| == |ss| - 1
  {
    UniqueId(ss, k);
    var before, after := ss[..k], ss[k + 1..];
    RemoveIdSplit(before, ss[k], after);
    assert ss == before + ([ss[k]] + after);
  }

  lemma RemoveIdSplit(before: seq<Slot>, x: Slot, after: seq<Slot>)
    requires forall i :: 0 <= i < |before| ==> before[i].id != x.id
    requires forall i :: 0 <= i < |after| ==> after[i].id != x.id
    ensures RemoveId(before + ([x] + after), x.id) == before + after
  {
    var f := (s: Slot) => s.id != x.id;
    KeepAll(before, f);
    KeepAll(after, f);
    assert Keep([x], f) == [] by {
      assert [x][1..] == [];
    }
    KeepAppend([x], after, f);
    assert [] + after == after;
    assert Keep([x] + after, f) == after;
    KeepAppend(before, [x] + after, f);
  }

  lemma UniqueId(ss: seq<Slot>, k: nat)
    requires Keyed(ss) && k < |ss|
    ensures forall i :: 0 <= i < |ss| && i != k ==> ss[i].id != ss[k].id
  {
    forall i | 0 <= i < |ss| && i != k ensures ss[i].id != ss[k].id {
      if i < k {
        assert Compatible(ss[i], ss[k]);
      } else {
        assert Compatible(ss[k], ss[i]);
      }
    }
  }

  /** Removing an id nothing has leaves every record. */
  lemma RemoveAbsentId(ss: seq<Slot>, id: nat)
    requires !HasId(ss, id)
    ensures RemoveId(ss, id) == ss
  {
    KeepAll(ss, (s: Slot) => s.id != id);
  }

  /**
   * The records of one generation: fresh ids from `nextId` on, keys unique
   * among themselves, all of one turf and date, available and unblocked.
   */
  lemma RecordsFresh(grid: seq<TimeRange>, turfId: string, date: string, nextId: nat)
    requires forall i, j :: 0 <= i < j < |grid| ==> grid[i].startTime != grid[j].startTime
    ensures var created := Records(grid, turfId, date, nextId);
      && Keyed(created)
      && forall s :: s in created ==>
           && nextId <= s.id < nextId + |grid|
           && s.turf == turfId && s.date == date && s.status == Available && s.blockedBy == None
  {
    var created := Records(grid, turfId, date, nextId);
    forall i, j | 0 <= i < j < |created| ensures Compatible(created[i], created[j]) {
      assert created[i].startTime == grid[i].startTime && created[j].startTime == grid[j].startTime;
    }
  }

  /**
   * Everything regeneration promises about the new store: keys stay unique,
   * ids stay below the advanced counter, the regenerated turf and date hold
   * exactly the new records and every other turf and date is untouched.
   */
  lemma Regenerated(prior: seq<Slot>, created: seq<Slot>, turfId: string, date: string,
                    nextId: nat, bound: nat)
    requires nextId <= bound
    requires Keyed(prior) && forall s :: s in prior ==> s.id < nextId
    requires Keyed(created)
    requires forall s :: s in created ==> nextId <= s.id < bound && s.turf == turfId && s.date == date
    ensures var after := ExceptPair(prior, turfId, date) + created;
      && Keyed(after)
      && (forall s :: s in after ==> s.id < bound)
      && ForPair(after, turfId, date) == created
      && (forall t, d :: t != turfId || d != date ==> ForPair(after, t, d) == ForPair(prior, t, d))
  {
    var kept := ExceptPair(prior, turfId, date);
    KeepKeyed(prior, (s: Slot) => !(s.turf == turfId && s.date == date));
    KeyedAppend(kept, created);
    RegeneratedPair(prior, created, turfId, date);
    forall t, d | t != turfId || d != date
      ensures ForPair(kept + created, t, d) == ForPair(prior, t, d)
    {
      RegeneratedOthers(prior, created, turfId, date, t, d);
    }
  }

  /**
   * A status override at position `k`: keys stay unique, ids stay bounded,
   * and every record is the old one patched for the target id.
   */
  lemma PatchedAt(ss: seq<Slot>, k: nat, id: nat, status: Status, blockedBy: Option<string>, bound: nat)
    requires Keyed(ss) && k < |ss| && ss[k].id == id
    requires forall s :: s in ss ==> s.id < bound
    ensures var after := ss[k := ss[k].(status := status, blockedBy := blockedBy)];
      && Keyed(after)
      && (forall s :: s in after ==> s.id < bound)
      && (forall i :: 0 <= i < |after| ==> after[i] == Patched(ss[i], id, status, blockedBy))
  {
    var after := ss[k := ss[k].(status := status, blockedBy := blockedBy)];
    UniqueId(ss, k);
    assert forall i :: 0 <= i < |ss| ==> after[i].id == ss[i].id && ss[i] in ss;
  }

  class SlotStore {
    /** The persisted slot collection. */
    var slots: seq<Slot>
    /** The id the next inserted record receives. */
    var nextId: nat

    ghost predicate Valid()
      reads this
    {
      Keyed(slots) && forall s :: s in slots ==> s.id < nextId
    }

    constructor ()
      ensures Valid() && slots == [] && nextId == 0
    {
      slots := [];
      nextId := 0;
    }

    /**
     * GET with `turfId` and `date`: 400 when either is missing or empty,
     * otherwise the slots of that turf and date in ascending start-time order.
     */
    function GetSlotsByDate(turfId: Option<string>, date: Option<string>): (r: Response<seq<Slot>>)
      reads this
      ensures r.BadRequest? <==> Missing(turfId) || Missing(date)
      ensures r.BadRequest? ==> r.message == ParamsRequired
      ensures !r.NotFound?
      ensures r.Ok? ==> (turfId.Some? && date.Some?
                         && SortedByStart(r.value)
                         && multiset(r.value) == multiset(ForPair(slots, turfId.value, date.value))
                         && forall s :: s in r.value <==>
                              s in slots && s.turf == turfId.value && s.date == date.value)
    {
      if Missing(turfId) || Missing(date) then BadRequest(ParamsRequired)
      else
        QueryExact(slots, turfId.value, date.value);
        Ok(SortByStart(ForPair(slots, turfId.value, date.value)))
    }

    /**
     * POST generate: 404 when the turf is unknown; otherwise the turf's
     * slots for the date are deleted and replaced by the freshly generated grid.
     */
    method GenerateSlots(turfs: map<string, Turf>, turfId: string, date: string,
                         startTime: string, endTime: string)
      returns (r: Response<Generated>)
      requires Valid()
      requires turfId in turfs ==> GenerationInput(turfs[turfId], startTime, endTime)
      modifies this
      ensures Valid()
      ensures turfId !in turfs ==>
                r == NotFound(TurfNotFound) && slots == old(slots) && nextId == old(nextId)
      ensures turfId in turfs ==> (
                var turf := turfs[turfId];
                var grid := Grid(startTime, endTime, turf.slotDurationMinutes, turf.bufferMinutes);
                && r.Ok?
                && r.value.slots == Records(grid, turfId, date, old(nextId))
                && r.value.count == |grid|
                && slots == ExceptPair(old(slots), turfId, date) + r.value.slots
                && nextId == old(nextId) + r.value.count)
      ensures r.Ok? ==> forall s :: s in r.value.slots ==>
                s.turf == turfId && s.date == date && s.status == Available && s.blockedBy == None
      ensures r.Ok? ==> ForPair(slots, turfId, date) == r.value.slots
      ensures forall t, d :: t != turfId || d != date ==> ForPair(slots, t, d) == ForPair(old(slots), t, d)
    {
      if turfId !in turfs {
        return NotFound(TurfNotFound);
      }
      var turf := turfs[turfId];
      var grid := GenerateGrid(startTime, endTime, turf.slotDurationMinutes, turf.bufferMinutes);
      GridStartsDistinct(startTime, endTime, turf.slotDurationMinutes, turf.bufferMinutes);
      var created := Records(grid, turfId, date, nextId);
      RecordsFresh(grid, turfId, date, nextId);
      Regenerated(slots, created, turfId, date, nextId, nextId + |created|);
      slots := ExceptPair(slots, turfId, date) + created;
      nextId := nextId + |created|;
      r := Ok(Generated(|created|, created));
    }

    /**
     * PUT by id: 404 when no slot has the id; otherwise that slot's status and
     * blockedBy are set, and the updated slot is returned.
     */
    method UpdateSlotStatus(id: nat, status: Status, blockedBy: Option<string>)
      returns (r: Response<Slot>)
      requires Valid()
      modifies this
      ensures Valid() && nextId == old(nextId)
      ensures r.Ok? || r == NotFound(SlotNotFound)
      ensures r.Ok? <==> HasId(old(slots), id)
      ensures r.Ok? ==> (r.value in slots && r.value.id == id
                         && r.value.status == status && r.value.blockedBy == blockedBy)
      ensures |slots| == |old(slots)|
      ensures forall i :: 0 <= i < |slots| ==> slots[i] == Patched(old(slots)[i], id, status, blockedBy)
    {
      var k := IndexOf(slots, id);
      if k == |slots| {
        forall i | 0 <= i < |slots| ensures slots[i] == Patched(slots[i], id, status, blockedBy) { }
        return NotFound(SlotNotFound);
      }
      PatchedAt(slots, k, id, status, blockedBy, nextId);
      slots := slots[k := slots[k].(status := status, blockedBy := blockedBy)];
      r := Ok(slots[k]);
    }

    /** DELETE by id: 404 when no slot has the id; otherwise exactly that slot is removed. */
    method DeleteSlot(id: nat) returns (r: Response<()>)
      requires Valid()
      modifies this
      ensures Valid() && nextId == old(nextId)
      ensures r == if HasId(old(slots), id) then Ok(()) else NotFound(SlotNotFound)
      ensures slots == RemoveId(old(slots), id)
    {
      var k := IndexOf(slots, id);
      if k == |slots| {
        RemoveAbsentId(slots, id);
        return NotFound(SlotNotFound);
      }
      RemoveIdAt(slots, k);
      KeepKeyed(slots, (s: Slot) => s.id != id);
      slots := slots[..k] + slots[k + 1..];
      r := Ok(());
    }
  }
}
