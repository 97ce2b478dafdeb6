/**
 * An event log of the two resources the viewer owns: object URLs (created
 * with `URL.createObjectURL`, released with `URL.revokeObjectURL`) and
 * `<model-viewer>` widgets (appended to and removed from the container).
 *
 * `Held` replays a log into the set of resources of one kind that are open
 * at its end. `OpenOnlyWhenClear` is the ordering discipline "release the old
 * one before opening a new one"; `AtMostOneHeld` proves that it keeps at most
 * one resource of that kind alive, and `ReleasedAtMostOnce` that, with fresh
 * identities, no resource is released twice.
 */
module Lifecycle {

  datatype Event =
    | Created(url: nat)
    | Revoked(url: nat)
    | Attached(widget: nat)
    | Detached(widget: nat)

  datatype Kind = Urls | Widgets

  /** `e` opens a resource of kind `k`. */
  predicate Opens(e: Event, k: Kind) {
    match k
    case Urls => e.Created?
    case Widgets => e.Attached?
  }

  /** `e` releases a resource of kind `k`. */
  predicate Closes(e: Event, k: Kind) {
    match k
    case Urls => e.Revoked?
    case Widgets => e.Detached?
  }

  /** The resource an event is about. */
  function Id(e: Event): nat {
    match e
    case Created(u) => u
    case Revoked(u) => u
    case Attached(w) => w
    case Detached(w) => w
  }

  /** The effect of one event on the set of open resources of kind `k`. */
  function Step(held: set<nat>, e: Event, k: Kind): set<nat> {
    if Opens(e, k) then held + {Id(e)}
    else if Closes(e, k) then held - {Id(e)}
    else held
  }

  /** The resources of kind `k` open after the whole log. */
  function Held(log: seq<Event>, k: Kind): set<nat>
    decreases |log|
  {
    if log == [] then {}
    else Step(Held(log[..|log| - 1], k), log[|log| - 1], k)
  }

  /** Every identity of kind `k` the log has opened so far. */
  function Opened(log: seq<Event>, k: Kind): set<nat>
    decreases |log|
  {
    if log == [] then {}
    else if Opens(log[|log| - 1], k) then Opened(log[..|log| - 1], k) + {Id(log[|log| - 1])}
    else Opened(log[..|log| - 1], k)
  }

  /** A resource of kind `k` is opened only when none of that kind is open. */
  ghost predicate OpenOnlyWhenClear(log: seq<Event>, k: Kind) {
    forall i :: 0 <= i < |log| && Opens(log[i], k) ==> Held(log[..i], k) == {}
  }

  /** A resource of kind `k` is released only while it is open. */
  ghost predicate CloseOnlyHeld(log: seq<Event>, k: Kind) {
    forall i :: 0 <= i < |log| && Closes(log[i], k) ==> Id(log[i]) in Held(log[..i], k)
  }

  /** Every resource of kind `k` is opened under an identity never opened before. */
  ghost predicate OpensFresh(log: seq<Event>, k: Kind) {
    forall i :: 0 <= i < |log| && Opens(log[i], k) ==> Id(log[i]) !in Opened(log[..i], k)
  }

  /**
   * The three disciplines, checked event by event while the log is replayed:
   * open only when nothing of kind `k` is held and under a fresh identity,
   * close only what is held.
   */
  predicate Disciplined(log: seq<Event>, k: Kind)
    decreases |log|
  {
    log == [] ||
    var prefix, e := log[..|log| - 1], log[|log| - 1];
    && Disciplined(prefix, k)
    && (Opens(e, k) ==> Held(prefix, k) == {} && Id(e) !in Opened(prefix, k))
    && (Closes(e, k) ==> Id(e) in Held(prefix, k))
  }

  /** Replaying one more event applies `Step` to what the log held. */
  lemma {:induction false} HeldAppend(log: seq<Event>, e: Event, k: Kind)
    ensures Held(log + [e], k) == Step(Held(log, k), e, k)
    ensures Opened(log + [e], k) == if Opens(e, k) then Opened(log, k) + {Id(e)} else Opened(log, k)
    ensures Disciplined(log + [e], k) <==>
              && Disciplined(log, k)
              && (Opens(e, k) ==> Held(log, k) == {} && Id(e) !in Opened(log, k))
              && (Closes(e, k) ==> Id(e) in Held(log, k))
  {
    assert (log + [e])[..|log|] == log;
  }

  /** The event-by-event check says exactly what the three quantified disciplines say. */
  lemma {:induction false} DisciplinedMeans(log: seq<Event>, k: Kind)
    ensures Disciplined(log, k) <==> OpenOnlyWhenClear(log, k) && CloseOnlyHeld(log, k) && OpensFresh(log, k)
    decreases |log|
  {
    if log != [] {
      var n := |log| - 1;
      var prefix := log[..n];
      DisciplinedMeans(prefix, k);
      PrefixesKeepDisciplines(log, k);
      forall i | 0 <= i < n ensures prefix[i] == log[i] && prefix[..i] == log[..i] {
      }
    }
  }

  /** Only opened resources can be held. */
  lemma {:induction false} HeldWereOpened(log: seq<Event>, k: Kind)
    ensures Held(log, k) <= Opened(log, k)
    decreases |log|
  {
    if log != [] {
      HeldWereOpened(log[..|log| - 1], k);
    }
  }

  /** Releasing before opening keeps at most one resource of a kind alive. */
  lemma {:induction false} AtMostOneHeld(log: seq<Event>, k: Kind)
    requires OpenOnlyWhenClear(log, k)
    ensures |Held(log, k)| <= 1
    decreases |log|
  {
    if log != [] {
      var n := |log| - 1;
      var prefix, e := log[..n], log[n];
      PrefixesKeepDisciplines(log, k);
      AtMostOneHeld(prefix, k);
      assert Held(log, k) == Step(Held(prefix, k), e, k);
      if Opens(e, k) {
        assert Held(prefix, k) == {};
      } else if Closes(e, k) {
        SubsetCardinality(Held(log, k), Held(prefix, k));
      }
    }
  }

  /** The quantified disciplines of a log hold of the log without its last event. */
  lemma PrefixesKeepDisciplines(log: seq<Event>, k: Kind)
    requires log != []
    ensures OpenOnlyWhenClear(log, k) ==> OpenOnlyWhenClear(log[..|log| - 1], k)
    ensures CloseOnlyHeld(log, k) ==> CloseOnlyHeld(log[..|log| - 1], k)
    ensures OpensFresh(log, k) ==> OpensFresh(log[..|log| - 1], k)
  {
    var prefix := log[..|log| - 1];
    forall i | 0 <= i < |prefix| ensures prefix[i] == log[i] && prefix[..i] == log[..i] {
    }
  }

  lemma SubsetCardinality(a: set<nat>, b: set<nat>)
    requires a <= b
    ensures |a| <= |b|
  {
    assert b == a + (b - a);
  }

  /** A released resource stays released: once closed, it is never held again. */
  lemma {:induction false} StaysReleased(log: seq<Event>, k: Kind, i: nat, m: nat)
    requires CloseOnlyHeld(log, k) && OpensFresh(log, k)
    requires i < m <= |log| && Closes(log[i], k)
    ensures Id(log[i]) !in Held(log[..m], k)
    decreases m - i
  {
    var x := Id(log[i]);
    assert log[..m][..m - 1] == log[..m - 1];
    if m == i + 1 {
      assert Held(log[..m], k) == Step(Held(log[..i], k), log[i], k);
    } else {
      StaysReleased(log, k, i, m - 1);
      var e := log[m - 1];
      if Opens(e, k) {
        assert x in Opened(log[..m - 1], k) by {
          assert Opened(log[..i + 1], k) <= Opened(log[..m - 1], k) by {
            OpenedGrows(log, i + 1, m - 1, k);
          }
          OpenedBeforeClose(log, k, i);
        }
      }
    }
  }

  /** Identities opened by a prefix stay opened in longer prefixes. */
  lemma {:induction false} OpenedGrows(log: seq<Event>, a: nat, b: nat, k: Kind)
    requires a <= b <= |log|
    ensures Opened(log[..a], k) <= Opened(log[..b], k)
    decreases b - a
  {
    if a < b {
      OpenedGrows(log, a, b - 1, k);
      assert log[..b][..b - 1] == log[..b - 1];
    }
  }

  /** Helper for StaysReleased: the identity of a released resource was opened earlier. */
  lemma {:induction false} OpenedBeforeClose(log: seq<Event>, k: Kind, i: nat)
    requires i < |log| && Closes(log[i], k)
    requires Id(log[i]) in Held(log[..i], k)
    ensures Id(log[i]) in Opened(log[..i + 1], k)
  {
    HeldWereOpened(log[..i], k);
    assert log[..i + 1][..i] == log[..i];
    assert !Opens(log[i], k) by {
      match k
      case Urls =>
      case Widgets =>
    }
  }

  /** With fresh identities, a resource that is released only while open is released once. */
  lemma {:induction false} ReleasedAtMostOnce(log: seq<Event>, k: Kind)
    requires CloseOnlyHeld(log, k) && OpensFresh(log, k)
    ensures forall i, j :: 0 <= i < j < |log| && Closes(log[i], k) && Closes(log[j], k) ==> Id(log[i]) != Id(log[j])
  {
    forall i, j | 0 <= i < j < |log| && Closes(log[i], k) && Closes(log[j], k)
      ensures Id(log[i]) != Id(log[j])
    {
      StaysReleased(log, k, i, j);
    }
  }
}
