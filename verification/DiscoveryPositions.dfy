/** What the predicates on runs say about the steps at given positions. */
module DiscoveryPositions {
  import opened Wrappers
  import opened DiscoveryModel

  /** The world in which step i is taken. */
  ghost function Before<P, L>(w: World<P, L>, steps: seq<Step<P, L>>, i: nat): World<P, L>
    requires i < |steps|
  {
    if i == 0 then w else steps[i - 1].world
  }

  lemma BeforeShift<P, L>(w: World<P, L>, steps: seq<Step<P, L>>, i: nat)
    requires i + 1 < |steps|
    ensures Before(w, steps, i + 1) == Before(steps[0].world, steps[1..], i)
  {}

  /** Element i differs from the one before it, the first one from start. */
  predicate DiffersAt(start: bool, s: seq<bool>, i: nat)
    requires i < |s|
  {
    s[i] != if i == 0 then start else s[i - 1]
  }

  lemma {:induction false} AlternatesMeans(start: bool, s: seq<bool>)
    ensures Alternates(start, s) <==> forall i :: 0 <= i < |s| ==> DiffersAt(start, s, i)
    decreases |s|
  {
    if s == [] {
    } else {
      var rest := s[1..];
      AlternatesMeans(s[0], rest);
      forall i | 0 <= i < |rest|
        ensures DiffersAt(start, s, i + 1) <==> DiffersAt(s[0], rest, i)
      {}
      assert DiffersAt(start, s, 0) <==> s[0] != start;
      hide DiffersAt;
      assert forall i :: 1 <= i < |s| ==> (DiffersAt(start, s, i) <==> DiffersAt(s[0], rest, i - 1)) by {
        forall i | 1 <= i < |s|
          ensures DiffersAt(start, s, i) <==> DiffersAt(s[0], rest, i - 1)
        {
          assert DiffersAt(start, s, (i - 1) + 1) <==> DiffersAt(s[0], rest, i - 1);
        }
      }
    }
  }

  /** No step takes l from b. */
  lemma {:induction false} RegisteredMeans<P, L>(w: World<P, L>, hostname: string, steps: seq<Step<P, L>>, b: P, l: L)
    requires Consistent(w) && Run(w, hostname, steps) && b in w.nodes
    ensures Registered(w, steps, b, l) <==>
            forall i :: 0 <= i < |steps| ==> steps[i].op != RemoveListener(b, Some(l))
    decreases |steps|
  {
    hide Next, Consistent;
    if steps == [] {
    } else {
      NextConsistent(w, steps[0].op, hostname, steps[0].world, steps[0].notes);
      RegisteredMeans(steps[0].world, hostname, steps[1..], b, l);
      assert forall i :: 1 <= i < |steps| ==> steps[i] == steps[1..][i - 1];
      assert forall i :: 0 <= i < |steps| - 1 ==> steps[1..][i] == steps[i + 1];
    }
  }

  /** Step i forgets what b has seen: it ends b's session, or begins one that was not open. */
  ghost predicate ClearsAt<P, L>(w: World<P, L>, steps: seq<Step<P, L>>, b: P, i: nat)
    requires i < |steps|
  {
    b in Before(w, steps, i).nodes &&
    (steps[i].op == EndBrowsing(b) || (steps[i].op == BeginBrowsing(b) && !Before(w, steps, i).nodes[b].browsing))
  }

  /** Step i is a browse of b with the peer in the directory. */
  ghost predicate FindsAt<P, L>(w: World<P, L>, steps: seq<Step<P, L>>, b: P, peer: P, i: nat)
    requires i < |steps|
  {
    steps[i].op == Browse(b) && peer in Before(w, steps, i).directory
  }

  ghost predicate InViewAt<P, L>(w: World<P, L>, steps: seq<Step<P, L>>, b: P, peer: P, i: nat)
    requires i < |steps|
  {
    b in Before(w, steps, i).nodes && peer in Before(w, steps, i).nodes[b].known
  }

  lemma PositionShift<P, L>(w: World<P, L>, steps: seq<Step<P, L>>, b: P, peer: P, i: nat)
    requires i + 1 < |steps|
    ensures ClearsAt(w, steps, b, i + 1) <==> ClearsAt(steps[0].world, steps[1..], b, i)
    ensures FindsAt(w, steps, b, peer, i + 1) <==> FindsAt(steps[0].world, steps[1..], b, peer, i)
    ensures InViewAt(w, steps, b, peer, i + 1) <==> InViewAt(steps[0].world, steps[1..], b, peer, i)
  {
    BeforeShift(w, steps, i);
  }

  /** Neither a clearing of b nor a removal of l from b at any step. */
  lemma {:induction false} UndisturbedMeans<P, L>(w: World<P, L>, hostname: string, steps: seq<Step<P, L>>, b: P, l: L)
    requires Consistent(w) && Run(w, hostname, steps) && b in w.nodes
    ensures Undisturbed(w, steps, b, l) <==>
            forall i :: 0 <= i < |steps| ==> !ClearsAt(w, steps, b, i) && steps[i].op != RemoveListener(b, Some(l))
    decreases |steps|
  {
    hide Next, Consistent;
    if steps == [] {
    } else {
      var s, rest := steps[0], steps[1..];
      NextConsistent(w, s.op, hostname, s.world, s.notes);
      UndisturbedMeans(s.world, hostname, rest, b, l);
      assert ClearsAt(w, steps, b, 0) <==> Clears(w, s.op, b);
      hide ClearsAt;
      forall i | 0 <= i < |rest|
        ensures ClearsAt(w, steps, b, i + 1) <==> ClearsAt(s.world, rest, b, i)
        ensures steps[i + 1] == rest[i]
      {
        PositionShift(w, steps, b, b, i);
      }
      assert forall i :: 1 <= i < |steps| ==> steps[i] == rest[i - 1]
                                              && (ClearsAt(w, steps, b, i) <==> ClearsAt(s.world, rest, b, i - 1));
    }
  }

  lemma {:induction false} FindsMeans<P, L>(w: World<P, L>, steps: seq<Step<P, L>>, b: P, peer: P)
    ensures Finds(w, steps, b, peer) <==> exists j :: 0 <= j < |steps| && FindsAt(w, steps, b, peer, j)
    decreases |steps|
  {
    if steps == [] {
    } else {
      var s, rest := steps[0], steps[1..];
      FindsMeans(s.world, rest, b, peer);
      assert FindsAt(w, steps, b, peer, 0) <==> s.op == Browse(b) && peer in w.directory;
      hide FindsAt;
      if j :| 0 <= j < |rest| && FindsAt(s.world, rest, b, peer, j) {
        PositionShift(w, steps, b, peer, j);
      }
      if j :| 0 <= j < |steps| && FindsAt(w, steps, b, peer, j) {
        if j > 0 {
          PositionShift(w, steps, b, peer, j - 1);
        }
      }
    }
  }

  /** At some step i the view of b is cleared with the peer in it, and at a later step j a browse
      of b finds the peer in the directory. */
  ghost predicate AgainAt<P, L>(w: World<P, L>, steps: seq<Step<P, L>>, b: P, peer: P, i: nat, j: nat) {
    i < j < |steps| && ClearsAt(w, steps, b, i) && InViewAt(w, steps, b, peer, i) && FindsAt(w, steps, b, peer, j)
  }

  lemma AgainShift<P, L>(w: World<P, L>, steps: seq<Step<P, L>>, b: P, peer: P, i: nat, j: nat)
    requires steps != []
    ensures AgainAt(w, steps, b, peer, i + 1, j + 1) <==> AgainAt(steps[0].world, steps[1..], b, peer, i, j)
  {
    hide ClearsAt, InViewAt, FindsAt;
    if i < j < |steps| - 1 {
      PositionShift(w, steps, b, peer, i);
      PositionShift(w, steps, b, peer, j);
    }
  }

  lemma AgainFirst<P, L>(w: World<P, L>, steps: seq<Step<P, L>>, b: P, peer: P)
    requires steps != [] && b in w.nodes
    ensures (exists j: nat :: AgainAt(w, steps, b, peer, 0, j)) <==>
            Clears(w, steps[0].op, b) && peer in w.nodes[b].known && Finds(steps[0].world, steps[1..], b, peer)
  {
    var s, rest := steps[0], steps[1..];
    FindsMeans(s.world, rest, b, peer);
    assert ClearsAt(w, steps, b, 0) <==> Clears(w, s.op, b);
    assert InViewAt(w, steps, b, peer, 0) <==> peer in w.nodes[b].known;
    hide ClearsAt, InViewAt, FindsAt, Clears, Finds;
    if j: nat :| AgainAt(w, steps, b, peer, 0, j) {
      PositionShift(w, steps, b, peer, j - 1);
    }
    if ClearsAt(w, steps, b, 0) && InViewAt(w, steps, b, peer, 0) {
      if j :| 0 <= j < |rest| && FindsAt(s.world, rest, b, peer, j) {
        PositionShift(w, steps, b, peer, j);
        assert AgainAt(w, steps, b, peer, 0, j + 1);
      }
    }
  }

  lemma {:induction false} FindsAgainMeans<P, L>(w: World<P, L>, hostname: string, steps: seq<Step<P, L>>,
                                                 b: P, peer: P)
    requires Consistent(w) && Run(w, hostname, steps) && b in w.nodes
    ensures FindsAgain(w, steps, b, peer) <==> exists i: nat, j: nat :: AgainAt(w, steps, b, peer, i, j)
    decreases |steps|
  {
    hide Next, Consistent, AgainAt, Clears, Finds;
    if steps == [] {
      NothingAgain(w, b, peer);
    } else {
      var s, rest := steps[0], steps[1..];
      NextConsistent(w, s.op, hostname, s.world, s.notes);
      FindsAgainMeans(s.world, hostname, rest, b, peer);
      AgainFirst(w, steps, b, peer);
      if i: nat, j: nat :| AgainAt(s.world, rest, b, peer, i, j) {
        AgainShift(w, steps, b, peer, i, j);
      }
      if i: nat, j: nat :| AgainAt(w, steps, b, peer, i, j) {
        if i > 0 {
          AgainOrder(w, steps, b, peer, i, j);
          AgainShift(w, steps, b, peer, i - 1, j - 1);
        }
      }
    }
  }

  lemma NothingAgain<P, L>(w: World<P, L>, b: P, peer: P)
    ensures forall i: nat, j: nat :: !AgainAt(w, [], b, peer, i, j)
  {}

  lemma AgainOrder<P, L>(w: World<P, L>, steps: seq<Step<P, L>>, b: P, peer: P, i: nat, j: nat)
    requires AgainAt(w, steps, b, peer, i, j)
    ensures i < j
  {}
}
