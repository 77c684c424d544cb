/**
 The watcher of attached transports: each poll's answer is compared with the view before it, arrivals are handed to a
 registry that may refuse them for now, and departures are handed over once.
 */
module TransportWatcher {
  import opened Text
  import opened TransportCondition
  import opened Wrappers

  datatype Device = Device(serial: string, transportID: string, host: string, port: nat)

  // ----- Keys

  datatype Key = Key(text: string)

  function Digits(n: nat): string {
    (if n < 10 then "" else Digits(n / 10)) + ["0123456789"[n % 10]]
  }

  /** The pair a departure is recorded against; the transport's own identifier is no part of it. */
  function RecordKey(d: Device): Key { Key(Trim(d.serial) + "|" + Trim(d.host) + ":" + Digits(d.port)) }

  /** What identifies an attached transport between polls, if anything does. */
  function TransportKey(d: Device): Option<Key> {
    var serial, transport := Trim(d.serial), Trim(d.transportID);
    var address := if d.port != 0 || Trim(d.host) != "" then Trim(d.host) + ":" + Digits(d.port) else "";
    if serial != "" && transport != "" then Some(Key("serial=" + serial + "|transport=" + transport))
    else if serial != "" && address != "" then Some(Key("serial=" + serial + "|address=" + address))
    else if serial != "" then Some(Key("serial=" + serial))
    else if address != "" then Some(Key("address=" + address))
    else None
  }

  type View = map<Key, Device>

  /** The view an answer gives: identified transports by key, the later of two with one key. */
  function ViewOf(devices: seq<Device>): View {
    if devices == [] then map[]
    else
      var last := devices[|devices| - 1];
      var before := ViewOf(devices[..|devices| - 1]);
      if TransportKey(last).None? then before else before[TransportKey(last).value := last]
  }

  // ----- What changed between two views

  function Records(view: View): set<Key> { set k | k in view :: RecordKey(view[k]) }

  function Arrived(previous: View, current: View): set<Key> { current.Keys - previous.Keys }

  /** The keys that answer no more but whose record is still there, under another key. */
  function Reidentified(previous: View, current: View): set<Key> {
    set k | k in previous && k !in current && RecordKey(previous[k]) in Records(current)
  }

  function Departed(previous: View, current: View): set<Key> {
    set k | k in previous && k !in current && RecordKey(previous[k]) !in Records(current)
  }

  function Count(view: View): nat { |view| }

  function Size(s: set<Key>): nat { |s| }

  lemma UnionSize(a: set<Key>, b: set<Key>)
    requires a !! b
    ensures |a + b| == |a| + |b|
  {
  }

  lemma DifferenceSize(a: set<Key>, b: set<Key>)
    ensures |a| == |a * b| + |a - b|
  {
    UnionSize(a * b, a - b);
    assert a * b + (a - b) == a;
  }

  lemma GoneSplits(previous: View, current: View)
    ensures previous.Keys - current.Keys == Departed(previous, current) + Reidentified(previous, current)
    ensures Departed(previous, current) !! Reidentified(previous, current)
  {
    hide RecordKey, Records;
  }

  /** The size of a view follows from what arrived, departed and changed its name. */
  lemma ViewsBalance(previous: View, current: View)
    ensures Count(current) == Count(previous) + Size(Arrived(previous, current)) - Size(Departed(previous, current)) - Size(Reidentified(previous, current))
  {
    hide Departed, Reidentified;
    GoneSplits(previous, current);
    UnionSize(Departed(previous, current), Reidentified(previous, current));
    DifferenceSize(previous.Keys, current.Keys);
    DifferenceSize(current.Keys, previous.Keys);
    assert previous.Keys * current.Keys == current.Keys * previous.Keys;
  }

  /** What a poll owes the registry: what has just arrived, and what is still attached of what it would not take. */
  function Pending(unrecorded: View, previous: View, current: View): View {
    map k | k in current && (k in unrecorded || k !in previous) :: current[k]
  }

  /** Of what the registry would not take, what is still attached once the keys that answer no more are taken out. */
  function Still(unrecorded: View, previous: View, current: View): View {
    unrecorded - (previous.Keys - current.Keys)
  }

  lemma NothingStill(previous: View, current: View)
    ensures Still(map[], previous, current) == map[] && Count(map[]) == 0
  {
  }

  lemma StillIsAttached(unrecorded: View, previous: View, current: View)
    requires unrecorded.Keys <= previous.Keys
    ensures Still(unrecorded, previous, current).Keys == unrecorded.Keys * current.Keys
  {
  }

  lemma PendingSplits(unrecorded: View, previous: View, current: View)
    requires unrecorded.Keys <= previous.Keys
    ensures Pending(unrecorded, previous, current).Keys == unrecorded.Keys * current.Keys + Arrived(previous, current)
    ensures unrecorded.Keys * current.Keys !! Arrived(previous, current)
  {
  }

  lemma PendingBalance(unrecorded: View, previous: View, current: View)
    requires unrecorded.Keys <= previous.Keys
    ensures var still := Still(unrecorded, previous, current);
            && still.Keys <= Pending(unrecorded, previous, current).Keys <= current.Keys
            && Count(Pending(unrecorded, previous, current)) == Count(still) + Size(Arrived(previous, current))
            && Count(still) <= Count(unrecorded)
  {
    StillIsAttached(unrecorded, previous, current);
    PendingSplits(unrecorded, previous, current);
    hide Still, Pending;
    UnionSize(unrecorded.Keys * current.Keys, Arrived(previous, current));
    DifferenceSize(unrecorded.Keys, current.Keys);
  }

  /** Of each key: whether it arrived, departed, changed its name, is owed to the registry, or is still held. */
  lemma WhatChanged(unrecorded: View, previous: View, current: View, k: Key)
    ensures k in Arrived(previous, current) <==> k in current && k !in previous
    ensures k in Departed(previous, current) <==>
            k in previous && k !in current && forall j :: j in current ==> RecordKey(current[j]) != RecordKey(previous[k])
    ensures k in Reidentified(previous, current) <==>
            k in previous && k !in current && exists j :: j in current && RecordKey(current[j]) == RecordKey(previous[k])
    ensures k in Pending(unrecorded, previous, current) <==> k in current && (k in unrecorded || k !in previous)
    ensures k in Pending(unrecorded, previous, current) ==> Pending(unrecorded, previous, current)[k] == current[k]
    ensures k in Still(unrecorded, previous, current) <==> k in unrecorded && (k in current || k !in previous)
  {
    hide RecordKey;
    if k in previous {
      assert RecordKey(previous[k]) in Records(current) <==> exists j :: j in current && RecordKey(current[j]) == RecordKey(previous[k]);
    }
  }

  /** Nothing whose record is in view departs. */
  lemma DepartedIsAbsent(previous: View, current: View, k: Key)
    requires k in Departed(previous, current)
    ensures forall j :: j in current ==> RecordKey(current[j]) != RecordKey(previous[k])
  {
    hide RecordKey;
  }

  lemma AbsentRecords(previous: View, current: View, left: View)
    requires left.Keys == Departed(previous, current) && forall k :: k in left ==> k in previous && left[k] == previous[k]
    ensures forall k, j :: k in left && j in current ==> RecordKey(current[j]) != RecordKey(left[k])
  {
    hide RecordKey;
    forall k, j | k in left && j in current ensures RecordKey(current[j]) != RecordKey(left[k]) {
      DepartedIsAbsent(previous, current, k);
    }
  }

  /** What is held is among what is owed: a refused batch takes its place, an accepted one leaves nothing held. */
  lemma HeldWithin(held: View, owed: View)
    requires held.Keys <= owed.Keys
    ensures held + owed == owed && held - owed.Keys == map[] && Count(map[]) == 0
    ensures owed == map[] ==> held == map[]
  {
    assert (held - owed.Keys).Keys == {};
    assert owed == map[] ==> held.Keys == {};
  }

  // ----- The watcher

  /** A poll's environment: the enumeration's answer, and whether each sink would accept a batch. */
  datatype Answer = Failed(condition: Condition) | Enumerated(devices: seq<Device>)
  datatype Poll = Poll(answer: Answer, accepts: bool, acceptsDepartures: bool)

  /** What a poll handed over: to the arrivals' sink, and to the departures'. */
  datatype HandOver = HandOver(arrivals: View, departures: View)

  const NOTHING := HandOver(map[], map[])

  /** What the laws are about. */
  datatype Counters = Counters(
    baseline: int, arrivals: int, departures: int, reidentified: int,
    unrecorded: View, recorded: int, withdrawn: int, departuresRecorded: int)

  /** What a comparison of two views does to the counters. */
  function Compared(c: Counters, sink: bool, departureSink: bool, previous: View, current: View, poll: Poll): Counters {
    var pending := Pending(c.unrecorded, previous, current);
    Counters(
      c.baseline,
      c.arrivals + Size(Arrived(previous, current)),
      c.departures + Size(Departed(previous, current)),
      c.reidentified + Size(Reidentified(previous, current)),
      if sink && !poll.accepts then pending else map[],
      c.recorded + if sink && poll.accepts then Count(pending) else 0,
      c.withdrawn + Count(c.unrecorded) - Count(Still(c.unrecorded, previous, current)),
      c.departuresRecorded + if departureSink && poll.acceptsDepartures then Size(Departed(previous, current)) else 0)
  }

  /** What an answered poll does to them. */
  function Next(
    c: Counters, sink: bool, departureSink: bool, haveBaseline: bool, previous: View, current: View, poll: Poll): Counters
  {
    if !haveBaseline then c.(baseline := Count(current))
    else if current == map[] then c
    else Compared(c, sink, departureSink, previous, current, poll)
  }

  lemma ComparedIs(c: Counters, d: Counters, sink: bool, departureSink: bool, previous: View, current: View, poll: Poll)
    requires d.baseline == c.baseline && d.arrivals == c.arrivals + Size(Arrived(previous, current))
    requires d.departures == c.departures + Size(Departed(previous, current))
    requires d.reidentified == c.reidentified + Size(Reidentified(previous, current))
    requires d.unrecorded == if sink && !poll.accepts then Pending(c.unrecorded, previous, current) else map[]
    requires d.recorded == c.recorded + if sink && poll.accepts then Count(Pending(c.unrecorded, previous, current)) else 0
    requires d.withdrawn == c.withdrawn + Count(c.unrecorded) - Count(Still(c.unrecorded, previous, current))
    requires d.departuresRecorded ==
             c.departuresRecorded + if departureSink && poll.acceptsDepartures then Size(Departed(previous, current)) else 0
    ensures d == Compared(c, sink, departureSink, previous, current, poll)
  {
    hide Pending, Arrived, Departed, Reidentified, Size, Still, Count;
  }

  class Watcher {
    const hasSink: bool
    const hasDepartureSink: bool
    const condition: ConditionLog
    var view: View
    var haveBaseline: bool
    var unrecorded: View
    var attached: nat
    var polls: nat
    var emptyPolls: nat
    var pollErrors: nat
    var arrivals: nat
    var departures: nat
    var reidentified: nat
    var recorded: nat
    var recordErrors: nat
    var departuresRecorded: nat
    var departureErrors: nat
    // The size of the first view, arrivals that left before they were recorded, departures the sink refused.
    ghost var baseline: nat
    ghost var withdrawn: nat
    ghost var refused: nat

    /** The conservation laws. */
    ghost predicate Valid()
      reads this, condition
    {
      && condition.Valid()
      && Count(view) == baseline + arrivals - departures - reidentified
      && (hasSink ==> arrivals == recorded + Count(unrecorded) + withdrawn)
      && (!hasSink ==> unrecorded == map[] && recorded == withdrawn == 0)
      && unrecorded.Keys <= view.Keys
      && (hasDepartureSink ==> departures == departuresRecorded + refused)
      && (!hasDepartureSink ==> departuresRecorded == refused == 0)
      && (!haveBaseline ==> view == map[] && arrivals == departures == reidentified == 0)
      && (haveBaseline ==> attached == Count(view))
    }

    constructor (hasSink: bool, hasDepartureSink: bool)
      ensures Valid() && fresh(condition) && !haveBaseline
      ensures this.hasSink == hasSink && this.hasDepartureSink == hasDepartureSink
    {
      this.hasSink, this.hasDepartureSink := hasSink, hasDepartureSink;
      condition := new ConditionLog();
      view, haveBaseline, unrecorded, attached := map[], false, map[], 0;
      polls, emptyPolls, pollErrors, arrivals, departures, reidentified := 0, 0, 0, 0, 0, 0;
      recorded, recordErrors, departuresRecorded, departureErrors := 0, 0, 0, 0;
      baseline, withdrawn, refused := 0, 0, 0;
    }

    ghost function Counts(): Counters
      reads this
    {
      Counters(baseline, arrivals, departures, reidentified, unrecorded, recorded, withdrawn, departuresRecorded)
    }

    /**
     One poll. A failed one and an empty answer leave the view as it is and hand nothing over. Nothing is handed over as
     departed while its record is in the new view, and what is handed over as arrived is there.
     */
    method Observe(poll: Poll) returns (handed: HandOver)
      requires Valid()
      modifies this, condition
      ensures Valid()
      ensures poll.answer.Failed? ==> view == old(view) && haveBaseline == old(haveBaseline) && handed == NOTHING
      ensures poll.answer.Enumerated? ==>
                var current := ViewOf(poll.answer.devices);
                if !old(haveBaseline) then haveBaseline && view == current && handed == NOTHING
                else if current == map[] then view == old(view) && haveBaseline && handed == NOTHING
                else
                  && haveBaseline && view == current
                  && handed.arrivals == (if hasSink then Pending(old(unrecorded), old(view), current) else map[])
                  && handed.departures.Keys == (if hasDepartureSink then Departed(old(view), current) else {})
                  && (forall k :: k in handed.departures ==> k in old(view) && handed.departures[k] == old(view)[k])
                  && forall k, j :: k in handed.departures && j in view ==> RecordKey(view[j]) != RecordKey(handed.departures[k])
      ensures polls == old(polls) + (if poll.answer.Enumerated? then 1 else 0)
      ensures pollErrors == old(pollErrors) + (if poll.answer.Failed? then 1 else 0)
      ensures condition.condition == if poll.answer.Enumerated? then Answered
                                     else if poll.answer.condition == Answered then old(condition.condition) else poll.answer.condition
      ensures poll.answer.Failed? && poll.answer.condition != Answered ==>
                condition.count == if old(condition.condition) == poll.answer.condition then old(condition.count) + 1 else 1
      ensures emptyPolls == old(emptyPolls) +
                if poll.answer.Enumerated? && ViewOf(poll.answer.devices) == map[] && old(haveBaseline) && old(view) != map[] then 1 else 0
      ensures recordErrors == old(recordErrors) + if handed.arrivals != map[] && !poll.accepts then 1 else 0
      ensures departureErrors == old(departureErrors) + if handed.departures != map[] && !poll.acceptsDepartures then 1 else 0
      ensures Counts() ==
              if poll.answer.Failed? then old(Counts())
              else Next(old(Counts()), hasSink, hasDepartureSink, old(haveBaseline), old(view), ViewOf(poll.answer.devices), poll)
    {
      hide RecordKey, ViewOf, Arrived, Departed, Reidentified, Pending, Valid, Compared, Count, Next;
      handed := NOTHING;
      if poll.answer.Failed? {
        PollFailed(poll.answer.condition);
        return;
      }
      PollAnswered();
      var current := Snapshot(poll.answer.devices);
      handed := See(current, poll);
      if old(haveBaseline) && current != map[] && hasDepartureSink {
        AbsentRecords(old(view), current, handed.departures);
      }
    }

    /** An answer's view: the baseline, no observation, or what to compare the view with. */
    method See(current: View, poll: Poll) returns (handed: HandOver)
      requires Valid()
      modifies this`view, this`haveBaseline, this`unrecorded, this`attached, this`emptyPolls, this`arrivals,
        this`departures, this`reidentified, this`recorded, this`recordErrors, this`departuresRecorded,
        this`departureErrors, this`baseline, this`withdrawn, this`refused
      ensures Valid()
      ensures if !old(haveBaseline) then haveBaseline && view == current && handed == NOTHING
              else if current == map[] then view == old(view) && haveBaseline && handed == NOTHING
              else
                && haveBaseline && view == current
                && handed.arrivals == (if hasSink then Pending(old(unrecorded), old(view), current) else map[])
                && handed.departures.Keys == (if hasDepartureSink then Departed(old(view), current) else {})
                && forall k :: k in handed.departures ==> k in old(view) && handed.departures[k] == old(view)[k]
      ensures emptyPolls == old(emptyPolls) + if current == map[] && old(haveBaseline) && old(view) != map[] then 1 else 0
      ensures recordErrors == old(recordErrors) + if handed.arrivals != map[] && !poll.accepts then 1 else 0
      ensures departureErrors == old(departureErrors) + if handed.departures != map[] && !poll.acceptsDepartures then 1 else 0
      ensures Counts() == Next(old(Counts()), hasSink, hasDepartureSink, old(haveBaseline), old(view), current, poll)
    {
      hide RecordKey, Arrived, Departed, Reidentified, Pending, Valid, Compared, Count;
      handed := NOTHING;
      if !haveBaseline {
        TakeBaseline(current);
      } else if current == map[] {
        KeepView();
      } else {
        handed := Compare(current, poll);
      }
    }

    method PollFailed(failure: Condition)
      requires Valid()
      modifies this`pollErrors, condition
      ensures Valid() && pollErrors == old(pollErrors) + 1
      ensures condition.condition == if failure == Answered then old(condition.condition) else failure
      ensures failure != Answered ==>
                condition.count == if old(condition.condition) == failure then old(condition.count) + 1 else 1
    {
      pollErrors := pollErrors + 1;
      if failure != Answered {
        var _ := condition.Observe(failure);
      }
    }

    method PollAnswered()
      requires Valid()
      modifies this`polls, condition
      ensures Valid() && polls == old(polls) + 1 && condition.condition == Answered
    {
      var _ := condition.Clear();
      polls := polls + 1;
    }

    /** The first answer is what was attached before anything could arrive. */
    method TakeBaseline(current: View)
      requires Valid() && !haveBaseline
      modifies this`view, this`haveBaseline, this`attached, this`baseline
      ensures Valid() && haveBaseline && view == current && baseline == Count(current)
    {
      view, haveBaseline, attached, baseline := current, true, Count(current), Count(current);
    }

    /** An answer that names nobody is no observation of absence. */
    method KeepView()
      requires Valid() && haveBaseline
      modifies this`emptyPolls, this`attached
      ensures Valid() && emptyPolls == old(emptyPolls) + if view != map[] then 1 else 0
    {
      if view != map[] {
        emptyPolls := emptyPolls + 1;
      }
      attached := Count(view);
    }

    method Compare(current: View, poll: Poll) returns (handed: HandOver)
      requires Valid() && haveBaseline && current != map[]
      modifies this`view, this`unrecorded, this`attached, this`arrivals, this`departures, this`reidentified,
        this`recorded, this`recordErrors, this`departuresRecorded, this`departureErrors, this`withdrawn, this`refused
      ensures Valid() && view == current
      ensures handed.arrivals == if hasSink then Pending(old(unrecorded), old(view), current) else map[]
      ensures handed.departures.Keys == if hasDepartureSink then Departed(old(view), current) else {}
      ensures forall k :: k in handed.departures ==> k in old(view) && handed.departures[k] == old(view)[k]
      ensures recordErrors == old(recordErrors) + if handed.arrivals != map[] && !poll.accepts then 1 else 0
      ensures departureErrors == old(departureErrors) + if handed.departures != map[] && !poll.acceptsDepartures then 1 else 0
      ensures Counts() == Compared(old(Counts()), hasSink, hasDepartureSink, old(view), current, poll)
    {
      hide RecordKey, Records, Arrived, Departed, Reidentified, Pending, Still, Size, Count, Compared, Valid, Owes;
      var pending, arrived := Owed(unrecorded, view, current);
      var left, renamed := Leaving(view, current);
      handed := HandOver(if hasSink then pending else map[], if hasDepartureSink then left else map[]);
      // What is owed no longer, because its key answers no more, is held no longer.
      var still := Still(unrecorded, view, current);
      TakeView(current, pending, arrived, left, still, renamed);
      Record(pending, left, poll);
      ComparedIs(old(Counts()), Counts(), hasSink, hasDepartureSink, old(view), current, poll);
    }

    /** The laws while a poll still owes these to the sinks. */
    ghost predicate Owes(pending: View, left: View)
      reads this, condition
    {
      && condition.Valid()
      && Count(view) == baseline + arrivals - departures - reidentified
      && (hasSink ==> arrivals == recorded + Count(pending) + withdrawn)
      && (!hasSink ==> unrecorded == map[] && recorded == withdrawn == 0)
      && unrecorded.Keys <= pending.Keys <= view.Keys
      && (hasDepartureSink ==> departures == departuresRecorded + refused + Count(left))
      && (!hasDepartureSink ==> departuresRecorded == refused == 0)
      && haveBaseline && attached == Count(view)
    }

    /** Counts what changed and takes over the new view. */
    method TakeView(current: View, pending: View, arrived: nat, left: View, still: View, renamed: nat)
      requires Valid() && haveBaseline
      requires pending == Pending(unrecorded, view, current) && arrived == Size(Arrived(view, current))
      requires Count(left) == Size(Departed(view, current)) && renamed == Size(Reidentified(view, current))
      requires still == Still(unrecorded, view, current)
      modifies this`view, this`unrecorded, this`attached, this`arrivals, this`departures, this`reidentified, this`withdrawn
      ensures Owes(pending, left) && view == current
      ensures arrivals == old(arrivals) + arrived && departures == old(departures) + Count(left)
      ensures reidentified == old(reidentified) + renamed
      ensures withdrawn == old(withdrawn) + Count(old(unrecorded)) - Count(still)
    {
      hide Pending, Arrived, Departed, Reidentified, Size, Still, Count, ConditionLog.Valid;
      ViewsBalance(view, current);
      PendingBalance(unrecorded, view, current);
      NothingStill(view, current);
      withdrawn := withdrawn + (Count(unrecorded) - Count(still));
      unrecorded, attached, view := still, Count(current), current;
      arrivals, departures, reidentified := arrivals + arrived, departures + Count(left), reidentified + renamed;
    }

    /** Both hand-overs of a poll, the arrivals first. */
    method Record(pending: View, left: View, poll: Poll)
      requires Owes(pending, left)
      modifies this`unrecorded, this`recorded, this`recordErrors, this`departuresRecorded, this`departureErrors, this`refused
      ensures Valid() && unrecorded == if hasSink && !poll.accepts then pending else map[]
      ensures recorded == old(recorded) + if hasSink && poll.accepts then Count(pending) else 0
      ensures departuresRecorded == old(departuresRecorded) + if hasDepartureSink && poll.acceptsDepartures then Count(left) else 0
      ensures recordErrors == old(recordErrors) + if hasSink && pending != map[] && !poll.accepts then 1 else 0
      ensures departureErrors == old(departureErrors) + if hasDepartureSink && left != map[] && !poll.acceptsDepartures then 1 else 0
    {
      hide Owes, Valid, Count;
      RecordArrivals(pending, poll.accepts, left);
      RecordDepartures(left, poll.acceptsDepartures);
    }

    /** A refused batch is held for the next poll; an accepted one is held no longer. */
    method RecordArrivals(pending: View, accepts: bool, ghost left: View)
      requires Owes(pending, left)
      modifies this`unrecorded, this`recorded, this`recordErrors
      ensures Owes(unrecorded, left) && unrecorded == if hasSink && !accepts then pending else map[]
      ensures recorded == old(recorded) + if hasSink && accepts then Count(pending) else 0
      ensures recordErrors == old(recordErrors) + if hasSink && pending != map[] && !accepts then 1 else 0
    {
      hide ConditionLog.Valid, Count;
      HeldWithin(unrecorded, pending);
      if !hasSink || pending == map[] {
        return;
      }
      if !accepts {
        recordErrors := recordErrors + 1;
        unrecorded := unrecorded + pending;
        return;
      }
      unrecorded := unrecorded - pending.Keys;
      recorded := recorded + Count(pending);
    }

    /** A refused batch of departures is counted and not offered again. */
    method RecordDepartures(left: View, accepts: bool)
      requires Owes(unrecorded, left)
      modifies this`departuresRecorded, this`departureErrors, this`refused
      ensures Valid() && (accepts ==> refused == old(refused))
      ensures departuresRecorded == old(departuresRecorded) + if hasDepartureSink && accepts then Count(left) else 0
      ensures departureErrors == old(departureErrors) + if hasDepartureSink && left != map[] && !accepts then 1 else 0
    {
      hide ConditionLog.Valid;
      if !hasDepartureSink || left == map[] {
        return;
      }
      if !accepts {
        departureErrors := departureErrors + 1;
        refused := refused + Count(left);
        return;
      }
      departuresRecorded := departuresRecorded + Count(left);
    }
  }

  function Part(done: set<Key>, other: set<Key>): set<Key> { done * other }

  /** A set that grows by one key, beside what it has of another. */
  lemma OneMore(done: set<Key>, key: Key, other: set<Key>)
    requires key !in done
    ensures Size(Part(done + {key}, other)) == Size(Part(done, other)) + if key in other then 1 else 0
    ensures Part(done + {key}, other) == if key in other then Part(done, other) + {key} else Part(done, other)
  {
    if key in other {
      assert (done + {key}) * other == done * other + {key};
    } else {
      assert (done + {key}) * other == done * other;
    }
  }

  lemma NothingDone(other: set<Key>)
    ensures Part({}, other) == {} && Size(Part({}, other)) == 0
  {
    assert {} * other == {};
  }

  lemma AllDone(done: set<Key>, other: set<Key>)
    requires other <= done
    ensures Part(done, other) == other
  {
    assert done * other == other;
  }

  lemma MapSize(view: View)
    ensures Count(view) == Size(view.Keys)
  {
  }

  /** What this poll owes the registry, and how much of it has just arrived. */
  method Owed(unrecorded: View, previous: View, current: View) returns (pending: View, arrived: nat)
    ensures pending == Pending(unrecorded, previous, current) && arrived == Size(Arrived(previous, current))
  {
    hide Size, Part;
    pending := map k | k in unrecorded && k in current :: current[k];
    var rest := current.Keys;
    arrived := 0;
    ghost var new' := Arrived(previous, current);
    ghost var held := pending.Keys;
    ghost var done: set<Key> := {};
    NothingDone(new');
    while rest != {}
      invariant done + rest == current.Keys && done !! rest
      invariant arrived == Size(Part(done, new'))
      invariant pending.Keys == held + Part(done, new')
      invariant forall k :: k in pending ==> k in current && pending[k] == current[k]
      decreases rest
    {
      var key :| key in rest;
      assert key in new' <==> key !in previous;
      hide Arrived;
      OneMore(done, key, new');
      done := done + {key};
      rest := rest - {key};
      if key in previous {
        continue;
      }
      arrived := arrived + 1;
      pending := pending[key := current[key]];
    }
    AllDone(done, new');
  }

  lemma GoneMember(previous: View, current: View, key: Key)
    requires key in previous
    ensures key in Departed(previous, current) <==> key !in current && RecordKey(previous[key]) !in Records(current)
    ensures key in Reidentified(previous, current) <==> key !in current && RecordKey(previous[key]) in Records(current)
  {
    hide RecordKey, Records;
  }

  lemma GoneWithin(previous: View, current: View)
    ensures Departed(previous, current) <= previous.Keys && Reidentified(previous, current) <= previous.Keys
  {
  }

  /** The transports that left, and how many keys that answer no more only changed their name. */
  method Leaving(previous: View, current: View) returns (left: View, renamed: nat)
    ensures left.Keys == Departed(previous, current) && forall k :: k in left ==> k in previous && left[k] == previous[k]
    ensures renamed == Size(Reidentified(previous, current)) && Count(left) == Size(Departed(previous, current))
  {
    hide RecordKey, Records, Departed, Reidentified, Size, Part;
    var present := Records(current);
    ghost var departed, named := Departed(previous, current), Reidentified(previous, current);
    var rest := previous.Keys;
    left, renamed := map[], 0;
    ghost var done: set<Key> := {};
    NothingDone(departed);
    NothingDone(named);
    while rest != {}
      invariant done + rest == previous.Keys && done !! rest
      invariant renamed == Size(Part(done, named)) && left.Keys == Part(done, departed)
      invariant forall k :: k in left ==> k in previous && left[k] == previous[k]
      decreases rest
    {
      var key :| key in rest;
      GoneMember(previous, current, key);
      OneMore(done, key, departed);
      OneMore(done, key, named);
      done := done + {key};
      rest := rest - {key};
      if key in current {
        continue;
      }
      if RecordKey(previous[key]) in present {
        renamed := renamed + 1;
        continue;
      }
      left := left[key := previous[key]];
    }
    GoneWithin(previous, current);
    AllDone(done, departed);
    AllDone(done, named);
    MapSize(left);
  }

  method Snapshot(devices: seq<Device>) returns (current: View)
    ensures current == ViewOf(devices)
  {
    current := map[];
    for i := 0 to |devices|
      invariant current == ViewOf(devices[..i])
    {
      assert devices[..i + 1][..i] == devices[..i];
      var key := TransportKey(devices[i]);
      hide TransportKey;
      if key.None? {
        continue;
      }
      current := current[key.value := devices[i]];
    }
    assert devices[..|devices|] == devices;
  }

  /** A whole run, whatever its polls answer: the laws hold at its end. */
  method Watch(hasSink: bool, hasDepartureSink: bool, polls: seq<Poll>) returns (watcher: Watcher)
    ensures watcher.Valid() && watcher.hasSink == hasSink && watcher.hasDepartureSink == hasDepartureSink
    ensures watcher.haveBaseline <==> exists k :: 0 <= k < |polls| && polls[k].answer.Enumerated?
  {
    watcher := new Watcher(hasSink, hasDepartureSink);
    for i := 0 to |polls|
      invariant watcher.Valid() && fresh(watcher) && fresh(watcher.condition)
      invariant watcher.haveBaseline <==> exists k :: 0 <= k < i && polls[k].answer.Enumerated?
    {
      var _ := watcher.Observe(polls[i]);
    }
  }
}
