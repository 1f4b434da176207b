/** The names that listeners hear against the names that a browser finds. */
module DiscoveryNames {
  import opened Wrappers
  import opened DiscoveryModel

  // ---------------------------------------------------------------- what a listener holds

  /** The name a listener holds for a peer after some notes: the last one it was added with, or
      none after a removal. */
  ghost function AfterNotes<P>(notes: seq<Note<P>>, peer: P, held: Option<string>): Option<string>
    decreases |notes|
  {
    if notes == [] then held
    else
      var n := notes[0];
      AfterNotes(notes[1..], peer, if n.peer != peer then held else if n.added then Some(n.name) else None)
  }

  /** The same after one step, when l hears from b. */
  ghost function HeldNow<P, L>(w: World<P, L>, s: Step<P, L>, b: P, l: L, peer: P, held: Option<string>)
    : Option<string>
  {
    if s.op == Browse(b) && b in w.nodes && l in w.nodes[b].listeners then AfterNotes(s.notes, peer, held) else held
  }

  /** The same after a run. */
  ghost function Held<P, L>(w: World<P, L>, steps: seq<Step<P, L>>, b: P, l: L, peer: P, held: Option<string>)
    : Option<string>
    decreases |steps|
  {
    if steps == [] then held
    else Held(steps[0].world, steps[1..], b, l, peer, HeldNow(w, steps[0], b, l, peer, held))
  }

  // ---------------------------------------------------------------- what the peer calls itself

  /** The name an announcement gives. */
  function AnnouncedName(instance: string, hostname: string): string {
    if instance == "" then hostname else instance
  }

  /** The name of the peer's last announcement since it entered b's view, after one step. */
  ghost function RenamedNow<P, L>(w: World<P, L>, op: Op<P, L>, hostname: string, b: P, peer: P, last: Option<string>)
    : Option<string>
  {
    match op
    case Announce(id, _, instance) => if id == peer then Some(AnnouncedName(instance, hostname)) else last
    case Browse(id) =>
      if id == b && b in w.nodes && peer in w.directory && peer !in w.nodes[b].known then None else last
    case _ => last
  }

  /** The same after a run: none when the peer was not announced since it entered. */
  ghost function Renamed<P, L>(w: World<P, L>, steps: seq<Step<P, L>>, hostname: string, b: P, peer: P,
                               last: Option<string>): Option<string>
    decreases |steps|
  {
    if steps == [] then last
    else Renamed(steps[0].world, steps[1..], hostname, b, peer, RenamedNow(w, steps[0].op, hostname, b, peer, last))
  }

  // ---------------------------------------------------------------- what every step keeps

  /** A name is held for exactly the peers in view; a peer in view that is announced bears its
      last announcement since then, or else the name held. */
  ghost predicate Booked<P, L>(w: World<P, L>, b: P, peer: P, held: Option<string>, last: Option<string>) {
    && b in w.nodes && peer in w.nodes
    && (peer in w.nodes[b].known <==> held.Some?)
    && (held.Some? && peer in w.directory ==>
          w.nodes[peer].name == if last.Some? then last.value else held.value)
  }

  lemma {:induction false} AfterNone<P>(notes: seq<Note<P>>, peer: P, held: Option<string>)
    requires forall i :: 0 <= i < |notes| ==> notes[i].peer != peer
    ensures AfterNotes(notes, peer, held) == held
    decreases |notes|
  {
    if notes == [] {
    } else {
      AfterNone(notes[1..], peer, held);
    }
  }

  lemma {:induction false} AfterOne<P>(notes: seq<Note<P>>, k: nat, held: Option<string>)
    requires forall i, j :: 0 <= i < j < |notes| ==> notes[i].peer != notes[j].peer
    requires k < |notes|
    ensures AfterNotes(notes, notes[k].peer, held) == if notes[k].added then Some(notes[k].name) else None
    decreases |notes|
  {
    var peer := notes[k].peer;
    if k == 0 {
      AfterNone(notes[1..], peer, if notes[0].added then Some(notes[0].name) else None);
    } else {
      AfterOne(notes[1..], k - 1, held);
    }
  }

  /** A browse changes the name held for the peers that entered or left, and for no other. */
  lemma BrowseHeld<P, L>(w: World<P, L>, known: set<P>, notes: seq<Note<P>>, peer: P, held: Option<string>)
    requires Closed(w) && known <= w.nodes.Keys && NotesFor(w, known, notes) && peer in w.nodes
    ensures AfterNotes(notes, peer, held) ==
            if peer in w.directory <==> peer in known then held
            else if peer in w.directory then Some(w.nodes[peer].name) else None
  {
    if peer in w.directory <==> peer in known {
      AfterNone(notes, peer, held);
    } else {
      var k :| 0 <= k < |notes| && notes[k].peer == peer;
      AfterOne(notes, k, held);
    }
  }

  lemma StepBooked<P, L>(w: World<P, L>, hostname: string, s: Step<P, L>, b: P, l: L, peer: P,
                         held: Option<string>, last: Option<string>)
    requires Next(w, s.op, hostname, s.world, s.notes) && Booked(w, b, peer, held, last)
    requires l in w.nodes[b].listeners && !Clears(w, s.op, b)
    ensures Booked(s.world, b, peer, HeldNow(w, s, b, l, peer, held), RenamedNow(w, s.op, hostname, b, peer, last))
  {
    hide FoundIn, NotesFor, AfterNotes;
    if s.op == Browse(b) {
      BrowseIsReported(w, hostname, s, b);
      BrowseHeld(w, w.nodes[b].known, s.notes, peer, held);
    }
  }

  lemma {:induction false} RunBooked<P, L>(w: World<P, L>, hostname: string, steps: seq<Step<P, L>>,
                                           b: P, l: L, peer: P, held: Option<string>, last: Option<string>)
    requires Run(w, hostname, steps) && Undisturbed(w, steps, b, l)
    requires Booked(w, b, peer, held, last) && l in w.nodes[b].listeners
    ensures Booked(Last(w, steps), b, peer,
                   Held(w, steps, b, l, peer, held), Renamed(w, steps, hostname, b, peer, last))
    decreases |steps|
  {
    hide Next, Booked, Clears, HeldNow, RenamedNow;
    if steps == [] {
    } else {
      var s := steps[0];
      BookedNodes(w, b, peer, held, last);
      StepBooked(w, hostname, s, b, l, peer, held, last);
      StepKeeps(w, hostname, s, b, l);
      RunBooked(s.world, hostname, steps[1..], b, l, peer,
                HeldNow(w, s, b, l, peer, held), RenamedNow(w, s.op, hostname, b, peer, last));
    }
  }

  lemma BookedNodes<P, L>(w: World<P, L>, b: P, peer: P, held: Option<string>, last: Option<string>)
    requires Booked(w, b, peer, held, last)
    ensures b in w.nodes && peer in w.nodes
  {}

  // ---------------------------------------------------------------- sessions

  /** In a session that ends with a browse: a listener holds a name for exactly the peers in the
      directory, and it is the peer's present name exactly when the peer's last announcement
      since it entered the view, if there was one, gave that name. */
  lemma NameHeldExactly<P, L>(w: World<P, L>, hostname: string, steps: seq<Step<P, L>>, s: Step<P, L>,
                              b: P, l: L, peer: P)
    requires b in w.nodes && peer in w.nodes && w.nodes[b].known == {} && l in w.nodes[b].listeners
    requires s.op == Browse(b)
    requires Run(w, hostname, steps + [s]) && Undisturbed(w, steps + [s], b, l)
    ensures var held := Held(w, steps + [s], b, l, peer, None);
            var last := Renamed(w, steps + [s], hostname, b, peer, None);
            && peer in s.world.nodes
            && (held.Some? <==> peer in s.world.directory)
            && (held.Some? ==> (held.value == s.world.nodes[peer].name <==> last == None || last == held))
  {
    hide Undisturbed, Held, Renamed, FoundIn, NotesFor;
    RunBooked(w, hostname, steps + [s], b, l, peer, None, None);
    RunAppend(w, hostname, steps, s);
  }

  /** When no peer in the directory was announced under another name while in view, the names
      that a listener holds are exactly the names found. */
  lemma NamesCovered<P, L>(w: World<P, L>, hostname: string, steps: seq<Step<P, L>>, s: Step<P, L>,
                           b: P, l: L, name: string)
    requires Consistent(w) && b in w.nodes && w.nodes[b].known == {} && l in w.nodes[b].listeners
    requires s.op == Browse(b)
    requires Run(w, hostname, steps + [s]) && Undisturbed(w, steps + [s], b, l)
    requires forall p :: p in w.nodes && p in s.world.directory ==>
                         Renamed(w, steps + [s], hostname, b, p, None) in
                         {None, Held(w, steps + [s], b, l, p, None)}
    ensures b in s.world.nodes
    ensures name in s.world.nodes[b].found <==>
            exists p :: p in w.nodes && Held(w, steps + [s], b, l, p, None) == Some(name)
  {
    hide Next, Consistent, Undisturbed, Held, Renamed, Run;
    RunAppend(w, hostname, steps, s);
    RunConsistent(w, hostname, steps);
    var before := Last(w, steps);
    FoundNames(before, b, hostname, s.world, s.notes, name);
    BrowseKeepsNames(before, b, hostname, s);
    forall p | p in w.nodes
      ensures Held(w, steps + [s], b, l, p, None) == Some(name) <==>
              before.nodes[p].announced && before.nodes[p].name == name
    {
      NameHeldExactly(w, hostname, steps, s, b, l, p);
    }
  }

  lemma BrowseKeepsNames<P, L>(w: World<P, L>, b: P, hostname: string, s: Step<P, L>)
    requires Consistent(w) && Next(w, s.op, hostname, s.world, s.notes) && s.op == Browse(b)
    ensures b in s.world.nodes && s.world.nodes.Keys == w.nodes.Keys
    ensures forall p :: p in w.nodes ==>
              s.world.nodes[p].name == w.nodes[p].name && (p in s.world.directory <==> w.nodes[p].announced)
  {
    hide FoundIn, NotesFor;
  }

  /** A peer in view and in the directory that announces itself again: nothing is heard about
      it, while its new name is found. */
  lemma RenameUnheard<P, L>(w: World<P, L>, hostname: string, s: Step<P, L>, t: Step<P, L>, b: P, l: L, peer: P,
                            port: nat, instance: string)
    requires Consistent(w) && Run(w, hostname, [s, t])
    requires b in w.nodes && peer in w.nodes[b].known && peer in w.directory
    requires s.op == Announce(peer, port, instance) && t.op == Browse(b)
    ensures Heard(w, [s, t], b, l, peer) == []
    ensures b in t.world.nodes && AnnouncedName(instance, hostname) in t.world.nodes[b].found
  {
    hide FoundIn, NotesFor, Kinds;
    assert [s, t][1..] == [t] && [t][1..] == [];
    assert Run(s.world, hostname, [t]);
    NextConsistent(w, s.op, hostname, s.world, s.notes);
    BrowseKinds(s.world, s.world.nodes[b].known, t.notes, peer);
    assert Heard(t.world, [], b, l, peer) == [];
    assert Heard(s.world, [t], b, l, peer) == [];
    assert s.world.nodes[peer].announced && s.world.nodes[peer].name == AnnouncedName(instance, hostname);
    FoundNames(s.world, b, hostname, t.world, t.notes, AnnouncedName(instance, hostname));
  }

  /** A run in which it happens: announce as "p", browse, announce as "q", browse. */
  lemma RenameMissed<P, L>(b: P, p: P, hostname: string) returns (steps: seq<Step<P, L>>)
    requires b != p
    ensures var w := TwoObjects(b, p);
            && Initial(w) && Run(w, hostname, steps) && |steps| == 4
            && steps[1].notes == [Note(true, p, "p")] && steps[3].notes == []
            && b in steps[3].world.nodes && steps[3].world.nodes[b].found.Keys == {"q"}
  {
    hide Next, FoundIn, NotesFor, Closed;
    var w: World<P, L> := TwoObjects(b, p);
    TwoObjectsClosed<P, L>(b, p);
    var s1 := Acted(w, Announce(p, 1, "p"), hostname);
    ActedIsNext(w, s1.op, hostname);
    var s2 := Browsed(s1.world, b, p);
    BrowsedIsNext(s1.world, b, p, hostname);
    var s3 := Acted(s2.world, Announce(p, 1, "q"), hostname);
    ActedIsNext(s2.world, s3.op, hostname);
    var s4 := Browsed(s3.world, b, p);
    BrowsedIsNext(s3.world, b, p, hostname);
    steps := [s1, s2, s3, s4];
    RunOfFour(w, hostname, s1, s2, s3, s4);
  }
}
