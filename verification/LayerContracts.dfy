/** The base-class lookup of the layer contract script: a breadth-first search over a class graph
    that may be cyclic and may name bases that are not known. */
module LayerContracts {
  import opened Options

  /** What a class defines under which name (its methods for `_resolve_method`, the classes
      of its attributes for `_resolve_attr`), and the names of its bases. */
  datatype ClassInfo<D> = ClassInfo(members: map<string, D>, bases: seq<string>)

  predicate Defines<D>(classes: map<string, ClassInfo<D>>, name: string, member: string) {
    name in classes && member in classes[name].members
  }

  /** A chain of n bases leads from `start` to `name`, all but the last of them known. */
  ghost predicate Reaches<D>(classes: map<string, ClassInfo<D>>, start: string, name: string, n: nat)
    decreases n
  {
    if n == 0 then name == start
    else exists sub :: Reaches(classes, start, sub, n - 1) && sub in classes && name in classes[sub].bases
  }

  lemma OneMoreSeen(known: set<string>, seen: set<string>, name: string)
    requires name in known && name !in seen
    ensures |known - (seen + {name})| < |known - seen|
  {
    assert known - seen == (known - (seen + {name})) + {name};
  }

  /** The search from a given queue, having seen some names. */
  function Search<D>(classes: map<string, ClassInfo<D>>, queue: seq<string>, seen: set<string>, member: string)
    : Option<D>
    decreases |classes.Keys - seen|, |queue|
  {
    if queue == [] then None
    else
      var name := queue[0];
      if name in seen || name !in classes then Search(classes, queue[1..], seen, member)
      else if member in classes[name].members then Some(classes[name].members[member])
      else
        OneMoreSeen(classes.Keys, seen, name);
        Search(classes, queue[1..] + classes[name].bases, seen + {name}, member)
  }

  ghost predicate NoneWithin<D>(classes: map<string, ClassInfo<D>>, start: string, member: string) {
    forall name, n: nat :: Reaches(classes, start, name, n) ==> !Defines(classes, name, member)
  }

  ghost predicate FoundAt<D>(
    classes: map<string, ClassInfo<D>>, start: string, member: string, definition: D, name: string, n: nat)
  {
    && Reaches(classes, start, name, n)
    && Defines(classes, name, member) && classes[name].members[member] == definition
    && (forall other, m: nat :: m < n && Reaches(classes, start, other, m) ==> !Defines(classes, other, member))
  }

  /** Nothing exactly when no class reachable through known classes defines the member, and
      otherwise the definition of a class that is reached in the fewest steps. */
  ghost predicate IsNearest<D>(classes: map<string, ClassInfo<D>>, start: string, member: string, r: Option<D>) {
    match r
    case None => NoneWithin(classes, start, member)
    case Some(definition) => exists name, n: nat :: FoundAt(classes, start, member, definition, name, n)
  }

  /** The first `k` queued names are at depth d, the rest at d + 1. */
  ghost predicate Queued<D>(
    classes: map<string, ClassInfo<D>>, start: string, queue: seq<string>, k: nat, d: nat)
  {
    && k <= |queue|
    && (forall i :: 0 <= i < |queue| ==> Reaches(classes, start, queue[i], if i < k then d else d + 1))
  }

  /** What has been seen is known, does not define the member, and has its bases seen or
      queued. */
  ghost predicate Expanded<D>(
    classes: map<string, ClassInfo<D>>, member: string, queue: seq<string>, seen: set<string>)
  {
    && (forall name :: name in seen ==> name in classes && !Defines(classes, name, member))
    && (forall name, base :: name in seen && base in classes[name].bases ==>
          base in seen || base in queue || base !in classes)
  }

  /** Everything known above depth d has been seen, and at depth d seen or among the first
      k queued. */
  ghost predicate Covered<D>(
    classes: map<string, ClassInfo<D>>, start: string, first: seq<string>, seen: set<string>, d: nat)
  {
    && (forall name, m: nat :: m < d && Reaches(classes, start, name, m) && name in classes ==> name in seen)
    && (forall name :: Reaches(classes, start, name, d) && name in classes ==> name in seen || name in first)
  }

  /** Where the search stands. */
  ghost predicate Standing<D>(
    classes: map<string, ClassInfo<D>>, start: string, member: string,
    queue: seq<string>, seen: set<string>, k: nat, d: nat)
  {
    && Queued(classes, start, queue, k, d)
    && Expanded(classes, member, queue, seen)
    && Covered(classes, start, queue[..k], seen, d)
  }

  ghost predicate Stands<D>(
    classes: map<string, ClassInfo<D>>, start: string, member: string, queue: seq<string>, seen: set<string>)
  {
    exists k: nat, d: nat :: Standing(classes, start, member, queue, seen, k, d)
  }

  lemma NextLevelCovered<D>(
    classes: map<string, ClassInfo<D>>, start: string, member: string,
    queue: seq<string>, seen: set<string>, d: nat)
    requires Expanded(classes, member, queue, seen) && Covered(classes, start, [], seen, d)
    ensures Covered(classes, start, queue, seen, d + 1)
  {
    forall name | Reaches(classes, start, name, d + 1) && name in classes
      ensures name in seen || name in queue
    {
      var sub :| Reaches(classes, start, sub, d) && sub in classes && name in classes[sub].bases;
      assert sub in seen;
    }
  }

  lemma LevelDone<D>(
    classes: map<string, ClassInfo<D>>, start: string, member: string,
    queue: seq<string>, seen: set<string>, d: nat)
    requires Standing(classes, start, member, queue, seen, 0, d)
    ensures Standing(classes, start, member, queue, seen, |queue|, d + 1)
  {
    assert queue[..0] == [] && queue[..|queue|] == queue;
    NextLevelCovered(classes, start, member, queue, seen, d);
  }

  lemma {:induction false} AllSeen<D>(
    classes: map<string, ClassInfo<D>>, start: string, member: string, seen: set<string>, d: nat, name: string, n: nat)
    requires Standing(classes, start, member, [], seen, 0, d)
    requires Reaches(classes, start, name, n) && name in classes
    ensures name in seen
    decreases n
  {
    if n > d {
      var sub :| Reaches(classes, start, sub, n - 1) && sub in classes && name in classes[sub].bases;
      AllSeen(classes, start, member, seen, d, sub, n - 1);
    }
  }

  lemma QueueMoves<D>(
    classes: map<string, ClassInfo<D>>, start: string, queue: seq<string>, added: seq<string>, k: nat, d: nat)
    requires Queued(classes, start, queue, k, d) && k > 0
    requires forall i :: 0 <= i < |added| ==> Reaches(classes, start, added[i], d + 1)
    ensures Queued(classes, start, queue[1..] + added, k - 1, d)
  {
    var rest := queue[1..] + added;
    forall i | 0 <= i < |rest| ensures Reaches(classes, start, rest[i], if i < k - 1 then d else d + 1) {
      assert rest[i] == if i < |queue| - 1 then queue[i + 1] else added[i - (|queue| - 1)];
    }
  }

  lemma FirstMoves(queue: seq<string>, added: seq<string>, k: nat)
    requires 0 < k <= |queue|
    ensures queue == [queue[0]] + queue[1..]
    ensures queue[..k] == [queue[0]] + (queue[1..] + added)[..k - 1]
  {
  }

  lemma StillCovered<D>(
    classes: map<string, ClassInfo<D>>, start: string, name: string, first: seq<string>,
    seen: set<string>, more: set<string>, d: nat)
    requires Covered(classes, start, [name] + first, seen, d)
    requires seen <= more && (name in more || name !in classes)
    ensures Covered(classes, start, first, more, d)
  {
  }

  lemma StillExpanded<D>(
    classes: map<string, ClassInfo<D>>, member: string, name: string, queue: seq<string>, added: seq<string>,
    seen: set<string>, more: set<string>)
    requires Expanded(classes, member, [name] + queue, seen)
    requires more == seen || (
      more == seen + {name} && name in classes && !Defines(classes, name, member) && added == classes[name].bases)
    requires name in more || name !in classes
    ensures Expanded(classes, member, queue + added, more)
  {
    forall sub, base | sub in more && base in classes[sub].bases
      ensures base in more || base in queue + added || base !in classes
    {
      if sub in seen {
        assert base in seen || base in [name] + queue || base !in classes;
      }
    }
  }

  lemma Popped<D>(
    classes: map<string, ClassInfo<D>>, start: string, member: string,
    queue: seq<string>, seen: set<string>, k: nat, d: nat)
    requires Standing(classes, start, member, queue, seen, k, d) && k > 0
    requires queue[0] in seen || queue[0] !in classes
    ensures Standing(classes, start, member, queue[1..], seen, k - 1, d)
  {
    QueueMoves(classes, start, queue, [], k, d);
    FirstMoves(queue, [], k);
    StillCovered(classes, start, queue[0], (queue[1..] + [])[..k - 1], seen, seen, d);
    StillExpanded(classes, member, queue[0], queue[1..], [], seen, seen);
    assert queue[1..] + [] == queue[1..];
  }

  lemma Expands<D>(
    classes: map<string, ClassInfo<D>>, start: string, member: string,
    queue: seq<string>, seen: set<string>, k: nat, d: nat)
    requires Standing(classes, start, member, queue, seen, k, d) && k > 0
    requires queue[0] in classes && queue[0] !in seen && !Defines(classes, queue[0], member)
    ensures Standing(classes, start, member, queue[1..] + classes[queue[0]].bases, seen + {queue[0]}, k - 1, d)
  {
    var name, bases := queue[0], classes[queue[0]].bases;
    assert Reaches(classes, start, name, d);
    assert forall i :: 0 <= i < |bases| ==> bases[i] in classes[name].bases;
    QueueMoves(classes, start, queue, bases, k, d);
    FirstMoves(queue, bases, k);
    StillCovered(classes, start, name, (queue[1..] + bases)[..k - 1], seen, seen + {name}, d);
    StillExpanded(classes, member, name, queue[1..], bases, seen, seen + {name});
  }

  lemma NothingLeft<D>(classes: map<string, ClassInfo<D>>, start: string, member: string, seen: set<string>, d: nat)
    requires Standing(classes, start, member, [], seen, 0, d)
    ensures NoneWithin(classes, start, member)
  {
    forall name, n: nat | Reaches(classes, start, name, n) ensures !Defines(classes, name, member) {
      if name in classes {
        AllSeen(classes, start, member, seen, d, name, n);
      }
    }
  }

  lemma FoundHere<D>(
    classes: map<string, ClassInfo<D>>, start: string, member: string,
    queue: seq<string>, seen: set<string>, k: nat, d: nat)
    requires Standing(classes, start, member, queue, seen, k, d) && k > 0
    requires queue[0] !in seen && Defines(classes, queue[0], member)
    ensures IsNearest(classes, start, member, Search(classes, queue, seen, member))
  {
    assert FoundAt(classes, start, member, classes[queue[0]].members[member], queue[0], d);
  }

  /** What the search does with a name that does not end it. */
  function Next<D>(classes: map<string, ClassInfo<D>>, queue: seq<string>, seen: set<string>)
    : (seq<string>, set<string>)
    requires queue != []
  {
    if queue[0] in seen || queue[0] !in classes then (queue[1..], seen)
    else (queue[1..] + classes[queue[0]].bases, seen + {queue[0]})
  }

  lemma SearchGoesOn<D>(classes: map<string, ClassInfo<D>>, queue: seq<string>, seen: set<string>, member: string)
    requires queue != [] && (queue[0] in seen || !Defines(classes, queue[0], member))
    ensures var (rest, more) := Next(classes, queue, seen);
      && Search(classes, queue, seen, member) == Search(classes, rest, more, member)
      && (|classes.Keys - more| < |classes.Keys - seen| || (more == seen && |rest| < |queue|))
  {
    if queue[0] in classes && queue[0] !in seen {
      OneMoreSeen(classes.Keys, seen, queue[0]);
    }
  }

  lemma Advances<D>(
    classes: map<string, ClassInfo<D>>, start: string, member: string,
    queue: seq<string>, seen: set<string>, k: nat, d: nat)
    requires Standing(classes, start, member, queue, seen, k, d) && k > 0
    requires queue[0] in seen || !Defines(classes, queue[0], member)
    ensures var (rest, more) := Next(classes, queue, seen); Stands(classes, start, member, rest, more)
  {
    var (rest, more) := Next(classes, queue, seen);
    if queue[0] in seen || queue[0] !in classes {
      Popped(classes, start, member, queue, seen, k, d);
    } else {
      Expands(classes, start, member, queue, seen, k, d);
    }
    assert Standing(classes, start, member, rest, more, k - 1, d);
  }

  /** The front of a queue that is not empty can be taken to lie on the current level. */
  lemma Front<D>(
    classes: map<string, ClassInfo<D>>, start: string, member: string, queue: seq<string>, seen: set<string>)
    returns (k: nat, d: nat)
    requires Stands(classes, start, member, queue, seen) && queue != []
    ensures Standing(classes, start, member, queue, seen, k, d) && k > 0
  {
    k, d :| Standing(classes, start, member, queue, seen, k, d);
    if k == 0 {
      LevelDone(classes, start, member, queue, seen, d);
      k, d := |queue|, d + 1;
    }
  }

  lemma OneStep<D>(
    classes: map<string, ClassInfo<D>>, start: string, member: string, queue: seq<string>, seen: set<string>)
    requires Stands(classes, start, member, queue, seen)
    ensures queue == [] || (queue[0] !in seen && Defines(classes, queue[0], member)) ==>
      IsNearest(classes, start, member, Search(classes, queue, seen, member))
    ensures queue != [] && (queue[0] in seen || !Defines(classes, queue[0], member)) ==>
      var (rest, more) := Next(classes, queue, seen); Stands(classes, start, member, rest, more)
  {
    if queue == [] {
      var k: nat, d: nat :| Standing(classes, start, member, queue, seen, k, d);
      NothingLeft(classes, start, member, seen, d);
    } else {
      var k, d := Front(classes, start, member, queue, seen);
      if queue[0] !in seen && Defines(classes, queue[0], member) {
        FoundHere(classes, start, member, queue, seen, k, d);
      } else {
        Advances(classes, start, member, queue, seen, k, d);
      }
    }
  }

  lemma {:induction false} SearchFrom<D>(
    classes: map<string, ClassInfo<D>>, start: string, member: string, queue: seq<string>, seen: set<string>)
    requires Stands(classes, start, member, queue, seen)
    ensures IsNearest(classes, start, member, Search(classes, queue, seen, member))
    decreases |classes.Keys - seen|, |queue|
  {
    OneStep(classes, start, member, queue, seen);
    if queue != [] && (queue[0] in seen || !Defines(classes, queue[0], member)) {
      SearchGoesOn(classes, queue, seen, member);
      var (rest, more) := Next(classes, queue, seen);
      SearchFrom(classes, start, member, rest, more);
    }
  }

  lemma SearchFindsNearest<D>(classes: map<string, ClassInfo<D>>, start: string, member: string)
    ensures IsNearest(classes, start, member, Search(classes, [start], {}, member))
  {
    assert [start][..1] == [start];
    assert Standing(classes, start, member, [start], {}, 1, 0);
    SearchFrom(classes, start, member, [start], {});
  }

  method Resolve<D>(classes: map<string, ClassInfo<D>>, className: string, member: string) returns (r: Option<D>)
    ensures r == Search(classes, [className], {}, member)
    ensures IsNearest(classes, className, member, r)
  {
    var seen: set<string> := {};
    var queue := [className];
    SearchFindsNearest(classes, className, member);
    while queue != []
      invariant Search(classes, queue, seen, member) == Search(classes, [className], {}, member)
      decreases |classes.Keys - seen|, |queue|
    {
      var name := queue[0];
      queue := queue[1..];
      if name in seen || name !in classes {
        continue;
      }
      OneMoreSeen(classes.Keys, seen, name);
      seen := seen + {name};
      if member in classes[name].members {
        return Some(classes[name].members[member]);
      }
      queue := queue + classes[name].bases;
    }
    r := None;
  }

  /** A definition is found exactly when some reachable class has one. */
  lemma FoundExactlyWhenReachable<D>(classes: map<string, ClassInfo<D>>, start: string, member: string)
    ensures Search(classes, [start], {}, member).Some? <==>
      exists name, n: nat :: Reaches(classes, start, name, n) && Defines(classes, name, member)
  {
    SearchFindsNearest(classes, start, member);
    var r := Search(classes, [start], {}, member);
    if r.Some? {
      var name, n: nat :| FoundAt(classes, start, member, r.value, name, n);
      assert Reaches(classes, start, name, n);
    } else {
      assert NoneWithin(classes, start, member);
    }
  }
}
