/** The engine's own record of how its sessions ended, and what the audit says from it. */
module MirrorAccounting {
  import opened MirrorMemory

  /** A class as an end path stated it: one of the vocabulary's, none, or another name outside it, by its rank there. */
  datatype Class = Named(class': EndClass) | NoClass | Unnamed(name: nat)

  datatype EndCount = EndCount(class': Class, count: nat)

  const LEFTOVER := Named(DeviceServerLeftover)

  /** The order the classes are stated in. It omits the leftover server. */
  const ORDER: seq<EndClass> := [
    ViewerDetached, EngineStopped, DeviceStreamEnded, TransportUnavailable, PushCancelled, DeviceServerFailed,
    NoStreamableScreen]

  function Place(c: Class): nat {
    match c
    case Named(ViewerDetached) => 0
    case Named(EngineStopped) => 1
    case Named(DeviceStreamEnded) => 2
    case Named(TransportUnavailable) => 3
    case Named(PushCancelled) => 4
    case Named(DeviceServerFailed) => 5
    case Named(NoStreamableScreen) => 6
    case Named(DeviceServerLeftover) => 7
    case NoClass => 8
    case Unnamed(name) => 9 + name
  }

  /** A failure is every class but a viewer leaving; no class at all is none. */
  predicate Failed(c: Class) { c != Named(ViewerDetached) && c != NoClass }

  function CountOf(ends: map<Class, nat>, c: Class): nat { if c in ends then ends[c] else 0 }

  /** Each class once, in the stated order and before this place, with its count. */
  ghost predicate Sound(out: seq<EndCount>, ends: map<Class, nat>, before: nat) {
    && (forall i :: 0 <= i < |out| ==>
          0 < out[i].count == CountOf(ends, out[i].class') && out[i].class' != LEFTOVER && Place(out[i].class') < before)
    && (forall i, j :: 0 <= i < j < |out| ==> Place(out[i].class') < Place(out[j].class'))
  }

  ghost predicate Listed(out: seq<EndCount>, c: Class) { exists i :: 0 <= i < |out| && out[i].class' == c }

  /** The list of the ends: sound, with every class but the leftover's. */
  ghost predicate Lists(out: seq<EndCount>, ends: map<Class, nat>) {
    && (exists before :: Sound(out, ends, before))
    && (forall c :: c != LEFTOVER && CountOf(ends, c) > 0 ==> Listed(out, c))
  }

  lemma SoundThen(out: seq<EndCount>, ends: map<Class, nat>, c: Class)
    requires Sound(out, ends, Place(c)) && CountOf(ends, c) > 0 && c != LEFTOVER
    ensures Sound(out + [EndCount(c, CountOf(ends, c))], ends, Place(c) + 1)
  {
    hide Place;
  }

  lemma ListedThen(out: seq<EndCount>, end: EndCount, c: Class)
    requires Listed(out, c) || end.class' == c
    ensures Listed(out + [end], c)
  {
    if Listed(out, c) {
      var i :| 0 <= i < |out| && out[i].class' == c;
      assert (out + [end])[i].class' == c;
    } else {
      assert (out + [end])[|out|].class' == c;
    }
  }

  function SumOf(out: seq<EndCount>): nat {
    if out == [] then 0 else SumOf(out[..|out| - 1]) + out[|out| - 1].count
  }

  lemma {:induction false} LeastExists(names: set<Class>, c: Class)
    requires c in names
    ensures exists least :: least in names && forall d :: d in names ==> Place(least) <= Place(d)
    decreases Place(c)
  {
    hide Place;
    if d :| d in names && Place(d) < Place(c) {
      LeastExists(names, d);
    } else {
      assert forall d :: d in names ==> Place(c) <= Place(d);
    }
  }

  lemma PlaceIsUnique(c: Class, d: Class)
    ensures Place(c) == Place(d) ==> c == d
  {
  }

  class Accounting {
    var sessionsEnded: nat
    var ends: map<Class, nat>
    // Every end there was, in order.
    ghost var log: seq<Class>

    ghost predicate Valid()
      reads this
    {
      sessionsEnded == |log| && forall c :: CountOf(ends, c) == multiset(log)[c]
    }

    constructor ()
      ensures Valid() && log == []
    {
      sessionsEnded := 0;
      ends := map[];
      log := [];
    }

    method SessionEnded(class': Class)
      requires Valid()
      modifies this`sessionsEnded, this`ends, this`log
      ensures Valid() && log == old(log) + [class'] && sessionsEnded == old(sessionsEnded) + 1
    {
      sessionsEnded := sessionsEnded + 1;
      ends := ends[class' := CountOf(ends, class') + 1];
      log := log + [class'];
    }

    /** The classes the order names, then the ones it does not know, by name. */
    method EndsByClass() returns (out: seq<EndCount>)
      ensures Lists(out, ends)
    {
      out := [];
      for k := 0 to |ORDER|
        invariant Sound(out, ends, k)
        invariant forall c :: Place(c) < k && CountOf(ends, c) > 0 ==> Listed(out, c)
      {
        var c := Named(ORDER[k]);
        OrderIsPlace(k);
        ghost var was := out;
        if CountOf(ends, c) > 0 {
          SoundThen(out, ends, c);
          out := out + [EndCount(c, CountOf(ends, c))];
        }
        hide Place, Sound, Listed;
        forall d | Place(d) < k + 1 && CountOf(ends, d) > 0 ensures Listed(out, d) {
          PlaceIsUnique(c, d);
          if CountOf(ends, c) > 0 {
            ListedThen(was, EndCount(c, CountOf(ends, c)), d);
          }
        }
        SoundWider(out, ends, k, k + 1);
      }
      UnnamedComeLast();
      out := AddUnnamed(out);
    }

    method AddUnnamed(named: seq<EndCount>) returns (out: seq<EndCount>)
      requires Sound(named, ends, 7)
      requires forall c: Class :: c.Named? && c != LEFTOVER && CountOf(ends, c) > 0 ==> Listed(named, c)
      ensures Lists(out, ends)
    {
      out := named;
      var rest := set c: Class | c in ends && !c.Named? && ends[c] > 0;
      UnnamedComeLast();
      hide Place, Sound, Listed;
      ghost var before: nat := 7;
      while rest != {}
        invariant forall c :: c in rest ==> !c.Named? && CountOf(ends, c) > 0 && before <= Place(c)
        invariant Sound(out, ends, before)
        invariant forall c :: c != LEFTOVER && CountOf(ends, c) > 0 && c !in rest ==> Listed(out, c)
        decreases |rest|
      {
        ghost var some :| some in rest;
        LeastExists(rest, some);
        var c :| c in rest && forall d :: d in rest ==> Place(c) <= Place(d);
        SoundWider(out, ends, before, Place(c));
        SoundThen(out, ends, c);
        ghost var was, end := out, EndCount(c, CountOf(ends, c));
        out := out + [EndCount(c, CountOf(ends, c))];
        forall d | d != LEFTOVER && CountOf(ends, d) > 0 && d !in rest - {c} ensures Listed(out, d) {
          assert d == c || d !in rest;
          ListedThen(was, end, d);
        }
        forall d | d in rest - {c} ensures Place(c) + 1 <= Place(d) {
          PlaceIsUnique(c, d);
        }
        rest := rest - {c};
        before := Place(c) + 1;
      }
    }
  }

  lemma SoundWider(out: seq<EndCount>, ends: map<Class, nat>, before: nat, later: nat)
    requires (Sound(out, ends, before) && before <= later) || Sound(out, ends, later)
    ensures Sound(out, ends, later)
  {
  }

  lemma OrderIsPlace(k: nat)
    requires k < |ORDER|
    ensures Place(Named(ORDER[k])) == k && Named(ORDER[k]) != LEFTOVER
  {
  }

  /** The vocabulary comes before any name outside it, and the leftover server right after the stated classes. */
  lemma UnnamedComeLast()
    ensures forall c: Class :: if c.Named? then Place(c) < 7 || c == LEFTOVER else Place(c) >= 8
  {
  }

  /** Whether an audit with these ends says nothing failed. */
  method EndedWithoutAFailure(sessionsEnded: nat, ends: seq<EndCount>) returns (clean: bool)
    ensures clean <==> sessionsEnded > 0 && forall i :: 0 <= i < |ends| ==> !Failed(ends[i].class')
  {
    if sessionsEnded == 0 {
      return false;
    }
    for i := 0 to |ends|
      invariant forall j :: 0 <= j < i ==> !Failed(ends[j].class')
    {
      if Failed(ends[i].class') {
        return false;
      }
    }
    return true;
  }

  /** The stated order: how viewing ended first, then what the transport did, then the device, then names outside it. */
  lemma StatedInOrder(out: seq<EndCount>, ends: map<Class, nat>, i: nat, j: nat)
    requires Lists(out, ends) && i < j < |out|
    ensures out[j].class' != Named(ViewerDetached)
    ensures out[j].class' == Named(EngineStopped) ==> out[i].class' == Named(ViewerDetached)
    ensures out[j].class' == Named(DeviceStreamEnded) ==> out[i].class' in [Named(ViewerDetached), Named(EngineStopped)]
    ensures out[j].class' == Named(TransportUnavailable) ==>
              out[i].class' in [Named(ViewerDetached), Named(EngineStopped), Named(DeviceStreamEnded)]
    ensures out[i].class' == Named(NoStreamableScreen) ==> !out[j].class'.Named?
    ensures out[i].class' == Named(DeviceServerFailed) ==> out[j].class' == Named(NoStreamableScreen) || !out[j].class'.Named?
    ensures !out[i].class'.Named? ==> out[j].class'.Unnamed?
    ensures out[i].class'.Unnamed? && out[j].class'.Unnamed? ==> out[i].class'.name < out[j].class'.name
  {
    assert Place(out[i].class') < Place(out[j].class');
    assert out[i].class' != LEFTOVER && out[j].class' != LEFTOVER;
  }

  // ----- What the list leaves out

  function Without(log: multiset<Class>, c: Class): multiset<Class> { log[c := 0] }

  lemma {:induction false} SumIsSize(out: seq<EndCount>, log: multiset<Class>)
    requires forall i :: 0 <= i < |out| ==> out[i].count == log[out[i].class']
    requires forall i, j :: 0 <= i < j < |out| ==> out[i].class' != out[j].class'
    requires forall c :: log[c] > 0 ==> Listed(out, c)
    ensures SumOf(out) == |log|
  {
    if out == [] {
      assert forall c :: log[c] > 0 ==> Listed(out, c);
      assert log == multiset{};
    } else {
      var last := |out| - 1;
      var rest := Without(log, out[last].class');
      forall c | rest[c] > 0 ensures Listed(out[..last], c) {
        var i :| 0 <= i < |out| && out[i].class' == c;
        assert out[..last][i].class' == c;
      }
      SumIsSize(out[..last], rest);
    }
  }

  /** The stated counts add up to the sessions ended, less the ends on a leftover server: those are stated nowhere. */
  lemma EndsLeaveOutLeftovers(out: seq<EndCount>, ends: map<Class, nat>, log: seq<Class>)
    requires Lists(out, ends) && forall c :: CountOf(ends, c) == multiset(log)[c]
    ensures SumOf(out) == |log| - multiset(log)[LEFTOVER]
  {
    var stated := Without(multiset(log), LEFTOVER);
    forall i, j | 0 <= i < j < |out| ensures out[i].class' != out[j].class' {
      assert Place(out[i].class') < Place(out[j].class');
    }
    forall c | stated[c] > 0 ensures Listed(out, c) {
      assert CountOf(ends, c) > 0;
    }
    SumIsSize(out, stated);
  }

  /**
   What the audit means by "ended without a failure": something ended, and every end that failed was on a device still
   holding a leftover server. So the answer is wrong exactly when there was one of those and no other failure.
   */
  lemma NoFailureMeans(out: seq<EndCount>, ends: map<Class, nat>, log: seq<Class>)
    requires Lists(out, ends) && forall c :: CountOf(ends, c) == multiset(log)[c]
    ensures (forall i :: 0 <= i < |out| ==> !Failed(out[i].class')) <==>
            (forall k :: 0 <= k < |log| ==> log[k] == Named(ViewerDetached) || log[k] == NoClass || log[k] == Named(DeviceServerLeftover))
  {
    assert forall c :: !Failed(c) <==> c == Named(ViewerDetached) || c == NoClass;
    hide Failed;
    if forall i :: 0 <= i < |out| ==> !Failed(out[i].class') {
      forall k | 0 <= k < |log| && Failed(log[k]) ensures log[k] == LEFTOVER {
        assert log[k] in multiset(log);
        assert log[k] == LEFTOVER || Listed(out, log[k]);
      }
    } else {
      var i :| 0 <= i < |out| && Failed(out[i].class');
      assert multiset(log)[out[i].class'] > 0;
      assert out[i].class' in log;
      var k :| 0 <= k < |log| && log[k] == out[i].class';
      assert Failed(log[k]) && log[k] != LEFTOVER;
    }
  }

  /** One session refused by a leftover server, and the audit reports that nothing failed. */
  method LeftoverGoesUnreported() returns (clean: bool, failed: bool)
    ensures clean && failed
  {
    var accounting := new Accounting();
    accounting.SessionEnded(LEFTOVER);
    var ends := accounting.EndsByClass();
    NoFailureMeans(ends, accounting.ends, accounting.log);
    clean := EndedWithoutAFailure(accounting.sessionsEnded, ends);
    failed := Failed(LEFTOVER);
  }
}
