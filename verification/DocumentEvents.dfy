/** Status changes collected during a scenario and published only after its commit. */
module DocumentEvents {
  import opened Options
  import opened Lifecycle
  import opened Records

  datatype StatusChange = StatusChange(
    document: DocumentId, project: ProjectId, status: DocumentStatus, currentJob: Option<JobId>)

  datatype Event = Event(change: StatusChange, owner: UserId)

  /** What subscribers get of a list of changes: those of known projects, delivered. */
  function Announced(changes: seq<StatusChange>, owners: map<ProjectId, UserId>, arrives: Event -> bool): seq<Event> {
    if changes == [] then []
    else
      var front := Announced(changes[..|changes| - 1], owners, arrives);
      var last := changes[|changes| - 1];
      if last.project in owners && arrives(Event(last, owners[last.project]))
      then front + [Event(last, owners[last.project])]
      else front
  }

  lemma {:induction false} AnnouncedConcat(
    a: seq<StatusChange>, b: seq<StatusChange>, owners: map<ProjectId, UserId>, arrives: Event -> bool)
    ensures Announced(a + b, owners, arrives) == Announced(a, owners, arrives) + Announced(b, owners, arrives)
  {
    if b == [] {
      assert a + b == a;
    } else {
      var front := b[..|b| - 1];
      assert (a + b)[..|a + b| - 1] == a + front;
      AnnouncedConcat(a, front, owners, arrives);
    }
  }

  // What is delivered, without the fold.

  /** The change reaches its subscribers: its project is known, and the event about it,
      addressed to the project's owner, arrives. */
  predicate Reaches(change: StatusChange, owners: map<ProjectId, UserId>, arrives: Event -> bool) {
    change.project in owners && arrives(Event(change, owners[change.project]))
  }

  /** `picks` are the positions of the changes that reach their subscribers, in order. */
  ghost predicate Picks(
    picks: seq<nat>, changes: seq<StatusChange>, owners: map<ProjectId, UserId>, arrives: Event -> bool)
  {
    && (forall k, l :: 0 <= k < l < |picks| ==> picks[k] < picks[l])
    && (forall i: nat :: i in picks <==> i < |changes| && Reaches(changes[i], owners, arrives))
  }

  predicate EventOf(event: Event, i: nat, changes: seq<StatusChange>, owners: map<ProjectId, UserId>) {
    i < |changes| && changes[i].project in owners && event == Event(changes[i], owners[changes[i].project])
  }

  /** One event for each of these, addressed to the owner, and no other. */
  ghost predicate DeliveredAt(
    events: seq<Event>, picks: seq<nat>, changes: seq<StatusChange>, owners: map<ProjectId, UserId>,
    arrives: Event -> bool)
  {
    && Picks(picks, changes, owners, arrives) && |events| == |picks|
    && forall k :: 0 <= k < |events| ==> EventOf(events[k], picks[k], changes, owners)
  }

  ghost predicate Delivered(
    events: seq<Event>, changes: seq<StatusChange>, owners: map<ProjectId, UserId>, arrives: Event -> bool)
  {
    exists picks :: DeliveredAt(events, picks, changes, owners, arrives)
  }

  lemma MorePicks(
    picks: seq<nat>, changes: seq<StatusChange>, owners: map<ProjectId, UserId>, arrives: Event -> bool)
    requires changes != [] && Picks(picks, changes[..|changes| - 1], owners, arrives)
    ensures var n := |changes| - 1;
      Picks(if Reaches(changes[n], owners, arrives) then picks + [n] else picks, changes, owners, arrives)
  {
    var n := |changes| - 1;
    var all := if Reaches(changes[n], owners, arrives) then picks + [n] else picks;
    forall k | 0 <= k < |picks| ensures picks[k] < n {
      assert picks[k] in picks;
    }
    forall i: nat ensures i in all <==> i < |changes| && Reaches(changes[i], owners, arrives) {
      assert i < n ==> changes[..n][i] == changes[i];
    }
  }

  lemma OneMoreDelivered(
    events: seq<Event>, picks: seq<nat>, changes: seq<StatusChange>, owners: map<ProjectId, UserId>,
    arrives: Event -> bool)
    requires changes != [] && DeliveredAt(events, picks, changes[..|changes| - 1], owners, arrives)
    ensures var last := changes[|changes| - 1];
      Delivered(if Reaches(last, owners, arrives) then events + [Event(last, owners[last.project])] else events,
                changes, owners, arrives)
  {
    var n := |changes| - 1;
    var last := changes[n];
    MorePicks(picks, changes, owners, arrives);
    forall k | 0 <= k < |events| ensures EventOf(events[k], picks[k], changes, owners) {
      assert EventOf(events[k], picks[k], changes[..n], owners);
    }
    if Reaches(last, owners, arrives) {
      var more, all := events + [Event(last, owners[last.project])], picks + [n];
      forall k | 0 <= k < |more| ensures EventOf(more[k], all[k], changes, owners) {
        assert k < |events| ==> EventOf(events[k], picks[k], changes, owners);
      }
      assert DeliveredAt(more, all, changes, owners, arrives);
    } else {
      assert DeliveredAt(events, picks, changes, owners, arrives);
    }
  }

  /** What is announced of a list of changes: an event for exactly those that reach their
      subscribers, in the order recorded. */
  lemma {:induction false} AnnouncedIsDelivered(
    changes: seq<StatusChange>, owners: map<ProjectId, UserId>, arrives: Event -> bool)
    ensures Delivered(Announced(changes, owners, arrives), changes, owners, arrives)
  {
    if changes == [] {
      assert DeliveredAt([], [], changes, owners, arrives);
    } else {
      var front := changes[..|changes| - 1];
      AnnouncedIsDelivered(front, owners, arrives);
      var picks :| DeliveredAt(Announced(front, owners, arrives), picks, front, owners, arrives);
      OneMoreDelivered(Announced(front, owners, arrives), picks, changes, owners, arrives);
    }
  }

  lemma {:induction false} AscendingIsIdentity(picks: seq<nat>, n: nat)
    requires forall k, l :: 0 <= k < l < |picks| ==> picks[k] < picks[l]
    requires forall i: nat :: i in picks <==> i < n
    ensures |picks| == n && forall k :: 0 <= k < n ==> picks[k] == k
  {
    assert picks != [] ==> picks[0] in picks;
    if n > 0 {
      var last := |picks| - 1;
      assert n - 1 in picks && picks[last] in picks;
      assert forall k :: 0 <= k < last ==> picks[k] < picks[last];
      var rest := picks[..last];
      forall i: nat ensures i in rest <==> i in picks && i != picks[last] {
        if i in picks {
          var l :| 0 <= l < |picks| && picks[l] == i;
          assert l < last ==> rest[l] == i;
        }
      }
      AscendingIsIdentity(rest, n - 1);
    }
  }

  /** With every project known and every delivery arriving, subscribers get one event for each
      change, in order and addressed to the owner of its project. */
  lemma EverythingArrives(
    events: seq<Event>, changes: seq<StatusChange>, owners: map<ProjectId, UserId>, arrives: Event -> bool)
    requires Delivered(events, changes, owners, arrives)
    requires forall i :: 0 <= i < |changes| ==>
      changes[i].project in owners && arrives(Event(changes[i], owners[changes[i].project]))
    ensures |events| == |changes|
    ensures forall i :: 0 <= i < |changes| ==> events[i] == Event(changes[i], owners[changes[i].project])
  {
    var picks :| DeliveredAt(events, picks, changes, owners, arrives);
    AscendingIsIdentity(picks, |changes|);
    assert forall i :: 0 <= i < |changes| ==> EventOf(events[i], picks[i], changes, owners);
  }

  class DocumentEventOutbox {
    const hasPublisher: bool
    const owners: map<ProjectId, UserId>
    const arrives: Event -> bool
    var pending: seq<StatusChange>
    var published: seq<Event>

    constructor (hasPublisher: bool, owners: map<ProjectId, UserId>, arrives: Event -> bool)
      ensures this.hasPublisher == hasPublisher && this.owners == owners && this.arrives == arrives
      ensures pending == [] && published == []
    {
      this.hasPublisher, this.owners, this.arrives := hasPublisher, owners, arrives;
      pending, published := [], [];
    }

    method Record(change: StatusChange)
      modifies this`pending
      ensures pending == if hasPublisher then old(pending) + [change] else old(pending)
    {
      if !hasPublisher {
        return;
      }
      pending := pending + [change];
    }

    /** A project's owner is looked up once and cached; an unknown project is skipped, a failed
        delivery swallowed. */
    method PublishAll(changes: seq<StatusChange>)
      modifies this`published
      ensures published == old(published) + Announced(changes, owners, arrives)
    {
      var cache: map<ProjectId, UserId> := map[];
      for i := 0 to |changes|
        invariant forall p :: p in cache ==> p in owners && cache[p] == owners[p]
        invariant published == old(published) + Announced(changes[..i], owners, arrives)
      {
        var change := changes[i];
        assert changes[..i + 1][..i] == changes[..i];
        if change.project !in cache {
          if change.project !in owners {
            continue;
          }
          cache := cache[change.project := owners[change.project]];
        }
        var event := Event(change, cache[change.project]);
        if arrives(event) {
          published := published + [event];
        }
      }
      assert changes[..|changes|] == changes;
    }

    /** Publishes in the order recorded, and keeps nothing. */
    method Flush()
      modifies this
      ensures hasPublisher ==> pending == []
      ensures hasPublisher ==> published == old(published) + Announced(old(pending), owners, arrives)
      ensures hasPublisher ==> Delivered(published[|old(published)|..], old(pending), owners, arrives)
      ensures !hasPublisher ==> pending == old(pending) && published == old(published)
    {
      AnnouncedIsDelivered(pending, owners, arrives);
      if !hasPublisher || pending == [] {
        return;
      }
      var changes := pending;
      pending := [];
      PublishAll(changes);
    }

    method Discard()
      modifies this`pending
      ensures pending == []
    {
      pending := [];
    }
  }
}
