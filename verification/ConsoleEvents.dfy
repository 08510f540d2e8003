/** The events that the console's two byte pumps wait for. */
module ConsoleEvents {

  const U32_SIZE: nat := 0x1_0000_0000

  /** A stop event, or a kick or readiness event, with whether the queue is then enabled and can be
      locked. */
  datatype Event = Stop | Ready(enabled: bool, lockable: bool)

  predicate Serves(e: Event) {
    e.Ready? && e.enabled && e.lockable
  }

  predicate AnyServes(events: seq<Event>) {
    exists i :: 0 <= i < |events| && Serves(events[i])
  }

  /** The events up to the first stop event. */
  function Heard(events: seq<Event>): seq<Event> {
    if events == [] || events[0] == Stop then [] else [events[0]] + Heard(events[1..])
  }

  lemma {:induction false} HeardUpTo(events: seq<Event>, i: nat)
    requires i <= |events| && Stop !in events[..i] && (i == |events| || events[i] == Stop)
    ensures Heard(events) == events[..i]
  {
    if i > 0 {
      assert events[0] in events[..i];
      assert events[1..][..i - 1] == events[..i][1..];
      HeardUpTo(events[1..], i - 1);
      assert events[..i] == [events[0]] + events[..i][1..];
    }
  }

  lemma OneMoreEvent(events: seq<Event>, i: nat)
    requires i < |events|
    ensures AnyServes(events[..i + 1]) <==> AnyServes(events[..i]) || Serves(events[i])
    ensures Stop in events[..i + 1] <==> Stop in events[..i] || events[i] == Stop
  {
    assert events[..i + 1] == events[..i] + [events[i]];
    if AnyServes(events[..i]) {
      var j :| 0 <= j < i && Serves(events[..i][j]);
      assert Serves(events[..i + 1][j]);
    }
    if Serves(events[i]) {
      assert Serves(events[..i + 1][i]);
    }
  }

  lemma {:induction false} ServingIsHeard(events: seq<Event>, i: nat)
    requires i <= |events| && Stop !in events[..i] && AnyServes(events[..i])
    ensures AnyServes(Heard(events))
  {
    var j :| 0 <= j < i && Serves(events[..i][j]);
    HeardAt(events, i, j);
  }

  lemma {:induction false} HeardAt(events: seq<Event>, i: nat, j: nat)
    requires j < i <= |events| && Stop !in events[..i]
    ensures j < |Heard(events)| && Heard(events)[j] == events[j]
  {
    assert events[0] in events[..i];
    if j > 0 {
      assert events[1..][..i - 1] == events[..i][1..];
      HeardAt(events[1..], i - 1, j - 1);
    }
  }

  lemma NoEvents(events: seq<Event>)
    ensures !AnyServes(events[..0]) && Stop !in events[..0]
  {
  }
}
