/** The in-process discovery directory as a state machine: many objects announce themselves
    in one directory and browse it, each against what it saw last. */
module DiscoveryModel {
  import opened Wrappers

  /** One object: its announcement, its browsing session, its data and its listeners. */
  datatype Node<P(==), L(==)> = Node(name: string, port: nat, announced: bool, browsing: bool,
                                     known: set<P>, found: map<string, KVMap>, data: KVMap, listeners: set<L>)

  /** All objects, and the shared directory of announced ones. */
  datatype World<P(==), L(==)> = World(nodes: map<P, Node<P, L>>, directory: set<P>)

  /** What a browsing object tells each of its listeners. */
  datatype Note<P> = Note(added: bool, peer: P, name: string)

  datatype Op<P, L> =
    | Set(id: P, key: string, value: string)
    | Announce(id: P, port: nat, instance: string)
    | Withdraw(id: P)
    | BeginBrowsing(id: P)
    | Browse(id: P)
    | EndBrowsing(id: P)
    | AddListener(id: P, listener: Option<L>)
    | RemoveListener(id: P, listener: Option<L>)

  // ---------------------------------------------------------------- the effect of a browse

  const HOST_KEY: string := "servus_host"

  /** What an announced object is discovered as: the default host entry and its own data. */
  function Values(data: KVMap): KVMap {
    map[HOST_KEY := "localhost"] + data
  }

  /** The instance map: every name in the directory, with the values of an object of that
      name (which one, when several share it, depends on the order of the directory). */
  ghost predicate FoundIn<P, L>(w: World<P, L>, found: map<string, KVMap>)
    requires w.directory <= w.nodes.Keys
  {
    && (forall p :: p in w.directory ==> w.nodes[p].name in found)
    && (forall n :: n in found ==>
          exists p :: p in w.directory && w.nodes[p].name == n && found[n] == Values(w.nodes[p].data))
  }

  /** One note for each peer that entered or left the directory, in some order. */
  ghost predicate NotesFor<P, L>(w: World<P, L>, known: set<P>, notes: seq<Note<P>>)
    requires w.directory <= w.nodes.Keys && known <= w.nodes.Keys
  {
    && (forall i, j :: 0 <= i < j < |notes| ==> notes[i].peer != notes[j].peer)
    && (forall i :: 0 <= i < |notes| ==>
          var n := notes[i];
          && n.peer in w.nodes && n.name == w.nodes[n.peer].name
          && (n.peer in w.directory <==> n.peer !in known)
          && (n.added <==> n.peer in w.directory))
    && (forall p :: p in w.nodes && (p in w.directory <==> p !in known) ==>
          exists i :: 0 <= i < |notes| && notes[i].peer == p)
  }

  /** The same while a browse is under way: the peers in done have been reported, and view
      is what the browser now holds as seen. */
  ghost predicate Reported<P, L>(w: World<P, L>, known: set<P>, view: set<P>, done: set<P>, notes: seq<Note<P>>)
    requires w.directory <= w.nodes.Keys && done <= w.nodes.Keys
  {
    && view == (known - done) + (done * w.directory)
    && (forall i, j :: 0 <= i < j < |notes| ==> notes[i].peer != notes[j].peer)
    && (forall i :: 0 <= i < |notes| ==>
          var n := notes[i];
          n.peer in done && n.name == w.nodes[n.peer].name && (n.added <==> n.peer in w.directory))
    && (forall p :: p in done ==> exists i :: 0 <= i < |notes| && notes[i].peer == p)
  }

  /** The peers that entered or left since they were last seen. */
  function Difference<P(==)>(directory: set<P>, known: set<P>): set<P> {
    (directory - known) + (known - directory)
  }

  lemma DifferenceWithin<P>(directory: set<P>, known: set<P>, all: set<P>)
    requires directory <= all && known <= all
    ensures Difference(directory, known) <= all
  {}

  /** Taking one element out of what is left adds it to what is done. */
  lemma OneMoreDone<P>(all: set<P>, rest: set<P>, p: P)
    requires p in rest && rest <= all
    ensures rest - {p} <= all && rest - {p} < rest
    ensures all - (rest - {p}) == all - rest + {p} && p !in all - rest
  {}

  lemma ReportedNone<P, L>(w: World<P, L>, known: set<P>)
    requires w.directory <= w.nodes.Keys
    ensures Reported(w, known, known, {}, [])
  {}

  lemma ReportedNext<P, L>(w: World<P, L>, known: set<P>, view: set<P>, done: set<P>, notes: seq<Note<P>>, p: P)
    requires w.directory <= w.nodes.Keys && done <= w.nodes.Keys && p in w.nodes
    requires Reported(w, known, view, done, notes)
    requires p in Difference(w.directory, known) && p !in done
    ensures p !in view <==> p in w.directory
    ensures var added := p !in view;
            Reported(w, known, if added then view + {p} else view - {p}, done + {p},
                     notes + [Note(added, p, w.nodes[p].name)])
  {
    var added := p !in view;
    var notes' := notes + [Note(added, p, w.nodes[p].name)];
    assert notes'[|notes|].peer == p;
    forall q | q in done + {p}
      ensures exists i :: 0 <= i < |notes'| && notes'[i].peer == q
    {
      if q != p {
        var i :| 0 <= i < |notes| && notes[i].peer == q;
        assert notes'[i].peer == q;
      }
    }
  }

  lemma ReportedAll<P, L>(w: World<P, L>, known: set<P>, view: set<P>, notes: seq<Note<P>>)
    requires w.directory <= w.nodes.Keys && known <= w.nodes.Keys
    requires Reported(w, known, view, Difference(w.directory, known), notes)
    ensures view == w.directory && NotesFor(w, known, notes)
  {}

  // ---------------------------------------------------------------- steps

  /** The state in which an operation may be called: the objects exist. */
  ghost predicate Closed<P, L>(w: World<P, L>) {
    && w.directory <= w.nodes.Keys
    && forall p :: p in w.nodes ==> w.nodes[p].known <= w.nodes.Keys
  }

  ghost function Put<P, L>(w: World<P, L>, id: P, n: Node<P, L>): World<P, L> {
    w.(nodes := w.nodes[id := n])
  }

  /** The new world of every operation but a browse. */
  ghost function After<P, L>(w: World<P, L>, op: Op<P, L>, hostname: string): World<P, L>
    requires op.id in w.nodes
  {
    var n := w.nodes[op.id];
    match op
    case Set(id, key, value) => Put(w, id, n.(data := n.data[key := value]))
    case Announce(id, port, instance) =>
      Put(w, id, n.(port := port, name := if instance == "" then hostname else instance, announced := true))
      .(directory := w.directory + {id})
    case Withdraw(id) =>
      Put(w, id, n.(announced := false, port := 0, name := "")).(directory := w.directory - {id})
    case BeginBrowsing(id) => if n.browsing then w else Put(w, id, n.(known := {}, browsing := true))
    case Browse(id) => w
    case EndBrowsing(id) => Put(w, id, n.(known := {}, browsing := false))
    case AddListener(id, None) => w
    case AddListener(id, Some(l)) => Put(w, id, n.(listeners := n.listeners + {l}))
    case RemoveListener(id, None) => w
    case RemoveListener(id, Some(l)) => Put(w, id, n.(listeners := n.listeners - {l}))
  }

  /** One operation, the world it leads to and the notes it sends. */
  ghost predicate Next<P, L>(w: World<P, L>, op: Op<P, L>, hostname: string, w': World<P, L>, notes: seq<Note<P>>) {
    && Closed(w) && op.id in w.nodes
    && if op.Browse? then
         && op.id in w'.nodes
         && var n, found := w.nodes[op.id], w'.nodes[op.id].found;
         && w' == Put(w, op.id, n.(known := w.directory, found := found))
         && FoundIn(w, found)
         && NotesFor(w, n.known, notes)
       else w' == After(w, op, hostname) && notes == []
  }

  lemma BrowseIsNext<P, L>(w: World<P, L>, id: P, hostname: string, w': World<P, L>,
                           found: map<string, KVMap>, notes: seq<Note<P>>)
    requires Closed(w) && id in w.nodes && FoundIn(w, found) && NotesFor(w, w.nodes[id].known, notes)
    requires w'.directory == w.directory
    requires w'.nodes == w.nodes[id := w.nodes[id].(known := w.directory, found := found)]
    ensures Next(w, Browse(id), hostname, w', notes)
  {
    hide Closed, FoundIn, NotesFor;
  }

  // ---------------------------------------------------------------- what every step keeps

  /** An object is in the directory exactly when it is announced; an object that is not has
      neither name nor port. */
  ghost predicate Consistent<P, L>(w: World<P, L>) {
    && Closed(w)
    && forall p :: p in w.nodes ==>
         && (p in w.directory <==> w.nodes[p].announced)
         && (!w.nodes[p].announced ==> w.nodes[p].name == "" && w.nodes[p].port == 0)
  }

  /** The objects as constructed. */
  ghost predicate Initial<P, L>(w: World<P, L>) {
    && w.directory == {}
    && forall p :: p in w.nodes ==> w.nodes[p] == Node("", 0, false, false, {}, map[], map[], {})
  }

  lemma InitialConsistent<P, L>(w: World<P, L>)
    requires Initial(w)
    ensures Consistent(w)
  {}

  lemma NextConsistent<P, L>(w: World<P, L>, op: Op<P, L>, hostname: string, w': World<P, L>, notes: seq<Note<P>>)
    requires Consistent(w) && Next(w, op, hostname, w', notes)
    ensures Consistent(w') && w'.nodes.Keys == w.nodes.Keys
  {
    hide FoundIn, NotesFor, Put;
    var n := w.nodes[op.id];
    match op
    case Set(id, key, value) => PutConsistent(w, id, n.(data := n.data[key := value]), w.directory);
    case Announce(id, port, instance) =>
      var name := if instance == "" then hostname else instance;
      PutConsistent(w, id, n.(port := port, name := name, announced := true), w.directory + {id});
    case Withdraw(id) =>
      PutConsistent(w, id, n.(announced := false, port := 0, name := ""), w.directory - {id});
    case BeginBrowsing(id) => PutConsistent(w, id, n.(known := {}, browsing := true), w.directory);
    case Browse(id) => PutConsistent(w, id, n.(known := w.directory, found := w'.nodes[id].found), w.directory);
    case EndBrowsing(id) => PutConsistent(w, id, n.(known := {}, browsing := false), w.directory);
    case AddListener(id, l) =>
      if l.Some? {
        PutConsistent(w, id, n.(listeners := n.listeners + {l.value}), w.directory);
      }
    case RemoveListener(id, l) =>
      if l.Some? {
        PutConsistent(w, id, n.(listeners := n.listeners - {l.value}), w.directory);
      }
  }

  lemma PutConsistent<P, L>(w: World<P, L>, id: P, n: Node<P, L>, directory: set<P>)
    requires Consistent(w) && id in w.nodes && n.known <= w.nodes.Keys
    requires id in directory <==> n.announced
    requires !n.announced ==> n.name == "" && n.port == 0
    requires directory - {id} == w.directory - {id}
    ensures Consistent(Put(w, id, n).(directory := directory)) && Put(w, id, n).nodes.Keys == w.nodes.Keys
    ensures directory == w.directory ==> Put(w, id, n).(directory := directory) == Put(w, id, n)
  {
    var w' := Put(w, id, n).(directory := directory);
    forall p | p in w'.nodes
      ensures (p in w'.directory <==> w'.nodes[p].announced) && w'.nodes[p].known <= w'.nodes.Keys
      ensures !w'.nodes[p].announced ==> w'.nodes[p].name == "" && w'.nodes[p].port == 0
    {
      if p != id {
        assert p in directory <==> p in directory - {id};
        assert p in w.directory <==> p in w.directory - {id};
      }
    }
    assert forall p :: p in directory ==> p == id || p in w.directory - {id};
  }

  // ---------------------------------------------------------------- runs

  datatype Step<P(==), L(==)> = Step(op: Op<P, L>, world: World<P, L>, notes: seq<Note<P>>)

  ghost predicate Run<P, L>(w: World<P, L>, hostname: string, steps: seq<Step<P, L>>)
    decreases |steps|
  {
    steps == [] ||
    (Next(w, steps[0].op, hostname, steps[0].world, steps[0].notes) && Run(steps[0].world, hostname, steps[1..]))
  }

  ghost function Last<P, L>(w: World<P, L>, steps: seq<Step<P, L>>): World<P, L>
    decreases |steps|
  {
    if steps == [] then w else Last(steps[0].world, steps[1..])
  }

  lemma {:induction false} RunConsistent<P, L>(w: World<P, L>, hostname: string, steps: seq<Step<P, L>>)
    requires Consistent(w) && Run(w, hostname, steps)
    ensures Consistent(Last(w, steps)) && Last(w, steps).nodes.Keys == w.nodes.Keys
    decreases |steps|
  {
    hide Next, Consistent;
    if steps == [] {
    } else {
      NextConsistent(w, steps[0].op, hostname, steps[0].world, steps[0].notes);
      RunConsistent(steps[0].world, hostname, steps[1..]);
    }
  }

  /** In every reachable state an object is in the directory exactly when it is announced. */
  lemma DirectoryIsAnnounced<P, L>(w: World<P, L>, hostname: string, steps: seq<Step<P, L>>, p: P)
    requires Initial(w) && Run(w, hostname, steps) && p in w.nodes
    ensures var last := Last(w, steps);
            p in last.nodes && (p in last.directory <==> last.nodes[p].announced)
  {
    InitialConsistent(w);
    RunConsistent(w, hostname, steps);
  }

  // ---------------------------------------------------------------- what a listener hears

  /** The kinds of the notes about one peer, in order. */
  ghost function Kinds<P>(notes: seq<Note<P>>, peer: P): seq<bool>
    decreases |notes|
  {
    if notes == [] then []
    else (if notes[0].peer == peer then [notes[0].added] else []) + Kinds(notes[1..], peer)
  }

  /** What l hears from b about the peer in one step. */
  ghost function HeardNow<P, L>(w: World<P, L>, s: Step<P, L>, b: P, l: L, peer: P): seq<bool> {
    if s.op == Browse(b) && b in w.nodes && l in w.nodes[b].listeners then Kinds(s.notes, peer) else []
  }

  /** The kinds that listener l hears from browser b about a peer during a run. */
  ghost function Heard<P, L>(w: World<P, L>, steps: seq<Step<P, L>>, b: P, l: L, peer: P): seq<bool>
    decreases |steps|
  {
    if steps == [] then []
    else HeardNow(w, steps[0], b, l, peer) + Heard(steps[0].world, steps[1..], b, l, peer)
  }

  /** The operation forgets what b has seen. */
  ghost predicate Clears<P, L>(w: World<P, L>, op: Op<P, L>, b: P)
    requires b in w.nodes
  {
    op == EndBrowsing(b) || (op == BeginBrowsing(b) && !w.nodes[b].browsing)
  }

  /** Neither a clearing of b nor a removal of l from b in the whole run. */
  ghost predicate Undisturbed<P, L>(w: World<P, L>, steps: seq<Step<P, L>>, b: P, l: L)
    decreases |steps|
  {
    steps == [] ||
    (b in w.nodes && !Clears(w, steps[0].op, b) && steps[0].op != RemoveListener(b, Some(l))
     && Undisturbed(steps[0].world, steps[1..], b, l))
  }

  /** Each element differs from the one before it; the first differs from start. */
  ghost predicate Alternates(start: bool, s: seq<bool>)
    decreases |s|
  {
    s == [] || (s[0] != start && Alternates(s[0], s[1..]))
  }

  ghost function Final(start: bool, s: seq<bool>): bool {
    if s == [] then start else s[|s| - 1]
  }

  lemma {:induction false} AlternatesConcat(start: bool, s: seq<bool>, t: seq<bool>)
    requires Alternates(start, s)
    ensures Alternates(start, s + t) <==> Alternates(Final(start, s), t)
    ensures Final(start, s + t) == Final(Final(start, s), t)
    decreases |s|
  {
    if s == [] {
      assert s + t == t;
    } else {
      AlternatesConcat(s[0], s[1..], t);
      assert (s + t)[1..] == s[1..] + t;
    }
  }

  lemma {:induction false} KindsNone<P>(notes: seq<Note<P>>, peer: P)
    requires forall i :: 0 <= i < |notes| ==> notes[i].peer != peer
    ensures Kinds(notes, peer) == []
    decreases |notes|
  {
    if notes == [] {
    } else {
      KindsNone(notes[1..], peer);
    }
  }

  lemma {:induction false} KindsOne<P>(notes: seq<Note<P>>, k: nat)
    requires forall i, j :: 0 <= i < j < |notes| ==> notes[i].peer != notes[j].peer
    requires k < |notes|
    ensures Kinds(notes, notes[k].peer) == [notes[k].added]
    decreases |notes|
  {
    var peer := notes[k].peer;
    if k == 0 {
      KindsNone(notes[1..], peer);
    } else {
      KindsOne(notes[1..], k - 1);
    }
  }

  /** A browse reports a peer once when it entered or left, else not at all. */
  lemma BrowseKinds<P, L>(w: World<P, L>, known: set<P>, notes: seq<Note<P>>, peer: P)
    requires Closed(w) && known <= w.nodes.Keys && NotesFor(w, known, notes) && peer in w.nodes
    ensures Kinds(notes, peer) == if peer in w.directory <==> peer in known then [] else [peer in w.directory]
  {
    if peer in w.directory <==> peer in known {
      KindsNone(notes, peer);
    } else {
      var k :| 0 <= k < |notes| && notes[k].peer == peer;
      KindsOne(notes, k);
    }
  }

  /** One step of the alternation. */
  lemma StepHeard<P, L>(w: World<P, L>, hostname: string, s: Step<P, L>, b: P, l: L, peer: P)
    requires Consistent(w) && Next(w, s.op, hostname, s.world, s.notes)
    requires b in w.nodes && peer in w.nodes && l in w.nodes[b].listeners
    requires !Clears(w, s.op, b) && s.op != RemoveListener(b, Some(l))
    ensures b in s.world.nodes && l in s.world.nodes[b].listeners
    ensures var heard := if s.op == Browse(b) then Kinds(s.notes, peer) else [];
            Alternates(peer in w.nodes[b].known, heard)
            && (peer in s.world.nodes[b].known <==> Final(peer in w.nodes[b].known, heard))
  {
    hide FoundIn, NotesFor;
    if s.op == Browse(b) {
      BrowseKinds(w, w.nodes[b].known, s.notes, peer);
    }
  }

  /** Over every run in which b's view is never cleared and l stays registered with b: l
      hears about each peer strictly alternating events, the first one "added" exactly when
      b had not seen the peer, and b has the peer in view exactly when the last was "added". */
  lemma {:induction false} HeardAlternates<P, L>(w: World<P, L>, hostname: string, steps: seq<Step<P, L>>,
                                                 b: P, l: L, peer: P)
    requires Consistent(w) && Run(w, hostname, steps) && Undisturbed(w, steps, b, l)
    requires b in w.nodes && peer in w.nodes && l in w.nodes[b].listeners
    ensures Alternates(peer in w.nodes[b].known, Heard(w, steps, b, l, peer))
    ensures b in Last(w, steps).nodes
    ensures peer in Last(w, steps).nodes[b].known <==>
            Final(peer in w.nodes[b].known, Heard(w, steps, b, l, peer))
    decreases |steps|
  {
    hide Next, Consistent, Clears, Kinds;
    if steps == [] {
    } else {
      var s := steps[0];
      NextConsistent(w, s.op, hostname, s.world, s.notes);
      StepHeard(w, hostname, s, b, l, peer);
      HeardAlternates(s.world, hostname, steps[1..], b, l, peer);
      var heard := if s.op == Browse(b) then Kinds(s.notes, peer) else [];
      AlternatesConcat(peer in w.nodes[b].known, heard, Heard(s.world, steps[1..], b, l, peer));
    }
  }

  lemma {:induction false} RunAppend<P, L>(w: World<P, L>, hostname: string, steps: seq<Step<P, L>>, s: Step<P, L>)
    ensures Run(w, hostname, steps + [s]) <==>
            Run(w, hostname, steps) && Next(Last(w, steps), s.op, hostname, s.world, s.notes)
    ensures Last(w, steps + [s]) == s.world
    decreases |steps|
  {
    hide Next;
    if steps == [] {
      assert [] + [s] == [s] && [s][1..] == [];
    } else {
      RunAppend(steps[0].world, hostname, steps[1..], s);
      assert (steps + [s])[1..] == steps[1..] + [s];
    }
  }

  /** Between two clearings of b's view: the events about each peer alternate and begin with
      "added"; when the run ends with a browse, b's view is the directory, and a peer is in
      the directory exactly when its last event was "added". */
  lemma SessionAlternates<P, L>(w: World<P, L>, hostname: string, steps: seq<Step<P, L>>, s: Step<P, L>,
                                b: P, l: L, peer: P)
    requires Consistent(w) && b in w.nodes && peer in w.nodes
    requires w.nodes[b].known == {} && l in w.nodes[b].listeners
    requires s.op == Browse(b)
    requires Run(w, hostname, steps + [s]) && Undisturbed(w, steps + [s], b, l)
    ensures var heard := Heard(w, steps + [s], b, l, peer);
            && Alternates(false, heard)
            && b in s.world.nodes && s.world.nodes[b].known == s.world.directory
            && (peer in s.world.directory <==> heard != [] && heard[|heard| - 1])
  {
    hide Consistent, Undisturbed, Heard, FoundIn, NotesFor;
    HeardAlternates(w, hostname, steps + [s], b, l, peer);
    RunAppend(w, hostname, steps, s);
  }

  /** Clearing is silent: whatever l had heard, after an endBrowsing the next browse reports
      every peer in the directory as added, also one whose last event was "added". */
  lemma ClearedReportsAgain<P, L>(w: World<P, L>, hostname: string, s: Step<P, L>, t: Step<P, L>, b: P, l: L, peer: P)
    requires Consistent(w) && Run(w, hostname, [s, t]) && b in w.nodes && peer in w.directory
    requires s.op == EndBrowsing(b) && t.op == Browse(b) && l in w.nodes[b].listeners
    ensures Heard(w, [s, t], b, l, peer) == [true]
  {
    hide FoundIn, NotesFor, Kinds;
    assert [s, t][1..] == [t] && [t][1..] == [];
    assert Run(s.world, hostname, [t]);
    NextConsistent(w, s.op, hostname, s.world, s.notes);
    BrowseKinds(s.world, {}, t.notes, peer);
    assert Heard(t.world, [], b, l, peer) == [];
    assert Heard(s.world, [t], b, l, peer) == [true];
  }

  // ---------------------------------------------------------------- across clearings

  /** l is not removed from b in the whole run. */
  ghost predicate Registered<P, L>(w: World<P, L>, steps: seq<Step<P, L>>, b: P, l: L)
    decreases |steps|
  {
    steps == [] ||
    (b in w.nodes && steps[0].op != RemoveListener(b, Some(l)) && Registered(steps[0].world, steps[1..], b, l))
  }

  /** Some browse of b in the run finds the peer in the directory. */
  ghost predicate Finds<P, L>(w: World<P, L>, steps: seq<Step<P, L>>, b: P, peer: P)
    decreases |steps|
  {
    steps != [] &&
    ((steps[0].op == Browse(b) && peer in w.directory) || Finds(steps[0].world, steps[1..], b, peer))
  }

  /** b is cleared while it has the peer in view, and finds it again later. */
  ghost predicate FindsAgain<P, L>(w: World<P, L>, steps: seq<Step<P, L>>, b: P, peer: P)
    decreases |steps|
  {
    steps != [] && b in w.nodes &&
    ((Clears(w, steps[0].op, b) && peer in w.nodes[b].known && Finds(steps[0].world, steps[1..], b, peer))
     || FindsAgain(steps[0].world, steps[1..], b, peer))
  }

  lemma {:induction false} AgainIsFound<P, L>(w: World<P, L>, steps: seq<Step<P, L>>, b: P, peer: P)
    requires FindsAgain(w, steps, b, peer)
    ensures Finds(w, steps, b, peer)
    decreases |steps|
  {
    hide Clears;
    if Finds(steps[0].world, steps[1..], b, peer) {
    } else {
      AgainIsFound(steps[0].world, steps[1..], b, peer);
    }
  }

  /** A step that does not take l from b keeps it; a clearing empties the view and sends nothing. */
  lemma StepKeeps<P, L>(w: World<P, L>, hostname: string, s: Step<P, L>, b: P, l: L)
    requires Next(w, s.op, hostname, s.world, s.notes)
    requires b in w.nodes && l in w.nodes[b].listeners && s.op != RemoveListener(b, Some(l))
    ensures b in s.world.nodes && l in s.world.nodes[b].listeners
    ensures Clears(w, s.op, b) ==> s.world.nodes[b].known == {} && s.op != Browse(b)
  {
    hide FoundIn, NotesFor;
  }

  /** From a view without the peer: something is heard about it exactly when a browse finds it
      in the directory, and then "added" first. */
  lemma {:induction false} FirstHeard<P, L>(w: World<P, L>, hostname: string, steps: seq<Step<P, L>>,
                                            b: P, l: L, peer: P)
    requires Consistent(w) && Run(w, hostname, steps) && Registered(w, steps, b, l)
    requires b in w.nodes && peer in w.nodes && l in w.nodes[b].listeners && peer !in w.nodes[b].known
    ensures var heard := Heard(w, steps, b, l, peer);
            (heard != [] <==> Finds(w, steps, b, peer)) && (heard != [] ==> heard[0])
    decreases |steps|
  {
    hide Next, Consistent, Clears, Kinds;
    if steps == [] {
    } else {
      var s := steps[0];
      NextConsistent(w, s.op, hostname, s.world, s.notes);
      StepKeeps(w, hostname, s, b, l);
      StillUnseen(w, hostname, s, b, l, peer);
      if !(s.op == Browse(b) && peer in w.directory) {
        FirstHeard(s.world, hostname, steps[1..], b, l, peer);
      }
    }
  }

  lemma StillUnseen<P, L>(w: World<P, L>, hostname: string, s: Step<P, L>, b: P, l: L, peer: P)
    requires Consistent(w) && Next(w, s.op, hostname, s.world, s.notes)
    requires b in w.nodes && peer in w.nodes && l in w.nodes[b].listeners && peer !in w.nodes[b].known
    requires b in s.world.nodes && s.op != RemoveListener(b, Some(l))
    requires Clears(w, s.op, b) ==> s.world.nodes[b].known == {}
    ensures s.op == Browse(b) ==> Kinds(s.notes, peer) == if peer in w.directory then [true] else []
    ensures !(s.op == Browse(b) && peer in w.directory) ==> peer !in s.world.nodes[b].known
  {
    hide Clears;
    if Clears(w, s.op, b) {
      StepKeeps(w, hostname, s, b, l);
    } else {
      StepHeard(w, hostname, s, b, l, peer);
      if s.op == Browse(b) {
        BrowseIsReported(w, hostname, s, b);
        BrowseKinds(w, w.nodes[b].known, s.notes, peer);
      }
    }
  }

  lemma BrowseIsReported<P, L>(w: World<P, L>, hostname: string, s: Step<P, L>, b: P)
    requires Next(w, s.op, hostname, s.world, s.notes) && s.op == Browse(b)
    ensures Closed(w) && b in w.nodes && w.nodes[b].known <= w.nodes.Keys && NotesFor(w, w.nodes[b].known, s.notes)
  {
    hide FoundIn, NotesFor;
  }

  lemma {:induction false} HeardConcat<P, L>(w: World<P, L>, x: seq<Step<P, L>>, y: seq<Step<P, L>>,
                                            b: P, l: L, peer: P)
    ensures Heard(w, x + y, b, l, peer) == Heard(w, x, b, l, peer) + Heard(Last(w, x), y, b, l, peer)
    decreases |x|
  {
    hide Heard, HeardNow;
    if x == [] {
      assert x + y == y;
      HeardNothing(w, b, l, peer);
    } else {
      HeardConcat(x[0].world, x[1..], y, b, l, peer);
      HeardStep(w, x, b, l, peer);
      HeardStep(w, x + y, b, l, peer);
      assert (x + y)[1..] == x[1..] + y;
      Associate(HeardNow(w, x[0], b, l, peer), Heard(x[0].world, x[1..], b, l, peer), Heard(Last(w, x), y, b, l, peer));
    }
  }

  lemma HeardNothing<P, L>(w: World<P, L>, b: P, l: L, peer: P)
    ensures Heard(w, [], b, l, peer) == []
  {}

  lemma HeardStep<P, L>(w: World<P, L>, steps: seq<Step<P, L>>, b: P, l: L, peer: P)
    requires steps != []
    ensures Heard(w, steps, b, l, peer) ==
            HeardNow(w, steps[0], b, l, peer) + Heard(steps[0].world, steps[1..], b, l, peer)
  {}

  lemma Associate(a: seq<bool>, b: seq<bool>, c: seq<bool>)
    ensures a + (b + c) == a + b + c
  {}

  /** Over every run in which l stays registered with b, however often b is cleared: what l
      hears about a peer alternates exactly unless b is cleared while it has the peer in view
      and finds it in the directory by a later browse. */
  lemma {:induction false} AlternatesExactly<P, L>(w: World<P, L>, hostname: string, steps: seq<Step<P, L>>,
                                                   b: P, l: L, peer: P)
    requires Consistent(w) && Run(w, hostname, steps) && Registered(w, steps, b, l)
    requires b in w.nodes && peer in w.nodes && l in w.nodes[b].listeners
    ensures Alternates(peer in w.nodes[b].known, Heard(w, steps, b, l, peer)) <==> !FindsAgain(w, steps, b, peer)
    decreases |steps|
  {
    hide Next, Consistent, Clears, Kinds, Finds;
    if steps == [] {
    } else {
      var s, rest := steps[0], steps[1..];
      NextConsistent(w, s.op, hostname, s.world, s.notes);
      StepKeeps(w, hostname, s, b, l);
      AlternatesExactly(s.world, hostname, rest, b, l, peer);
      var heard := Heard(s.world, rest, b, l, peer);
      if Clears(w, s.op, b) {
        assert Heard(w, steps, b, l, peer) == heard;
        FirstHeard(s.world, hostname, rest, b, l, peer);
        if FindsAgain(s.world, rest, b, peer) {
          AgainIsFound(s.world, rest, b, peer);
        }
      } else {
        StepHeard(w, hostname, s, b, l, peer);
        var now := if s.op == Browse(b) then Kinds(s.notes, peer) else [];
        AlternatesConcat(peer in w.nodes[b].known, now, heard);
      }
    }
  }

  /** One clearing between two undisturbed runs: what l hears about a peer alternates exactly
      when b did not have the peer in view at the clearing, or no later browse finds it, in
      which case nothing more is heard. */
  lemma ClearedExactly<P, L>(w: World<P, L>, hostname: string, r1: seq<Step<P, L>>, s: Step<P, L>,
                             r2: seq<Step<P, L>>, b: P, l: L, peer: P)
    requires Consistent(w) && b in w.nodes && peer in w.nodes && l in w.nodes[b].listeners
    requires peer !in w.nodes[b].known
    requires Run(w, hostname, r1) && Undisturbed(w, r1, b, l)
    requires Next(Last(w, r1), s.op, hostname, s.world, s.notes)
    requires b in Last(w, r1).nodes && Clears(Last(w, r1), s.op, b)
    requires Run(s.world, hostname, r2) && Undisturbed(s.world, r2, b, l)
    ensures var h1, h2 := Heard(w, r1, b, l, peer), Heard(s.world, r2, b, l, peer);
            && Heard(w, r1 + ([s] + r2), b, l, peer) == h1 + h2
            && (Alternates(false, h1 + h2) <==> (peer in Last(w, r1).nodes[b].known ==> h2 == []))
            && (h2 == [] <==> !Finds(s.world, r2, b, peer))
  {
    hide Next, Consistent, Clears, Finds, Heard;
    var last := Last(w, r1);
    RunConsistent(w, hostname, r1);
    HeardAlternates(w, hostname, r1, b, l, peer);
    StaysRegistered(w, hostname, r1, b, l);
    NextConsistent(last, s.op, hostname, s.world, s.notes);
    ClearingKeeps(last, s.op, b, l);
    StepKeeps(last, hostname, s, b, l);
    UndisturbedRegistered(s.world, r2, b, l);
    FirstHeard(s.world, hostname, r2, b, l, peer);
    HeardAlternates(s.world, hostname, r2, b, l, peer);
    AlternatesConcat(false, Heard(w, r1, b, l, peer), Heard(s.world, r2, b, l, peer));
    HeardConcat(w, r1, [s] + r2, b, l, peer);
    HeardAfter(last, s, r2, b, l, peer);
  }

  lemma HeardAfter<P, L>(w: World<P, L>, s: Step<P, L>, rest: seq<Step<P, L>>, b: P, l: L, peer: P)
    requires s.op != Browse(b)
    ensures Heard(w, [s] + rest, b, l, peer) == Heard(s.world, rest, b, l, peer)
  {
    assert ([s] + rest)[1..] == rest;
  }

  lemma ClearingKeeps<P, L>(w: World<P, L>, op: Op<P, L>, b: P, l: L)
    requires b in w.nodes && Clears(w, op, b)
    ensures op != RemoveListener(b, Some(l))
  {}

  lemma {:induction false} UndisturbedRegistered<P, L>(w: World<P, L>, steps: seq<Step<P, L>>, b: P, l: L)
    requires Undisturbed(w, steps, b, l)
    ensures Registered(w, steps, b, l)
    decreases |steps|
  {
    if steps == [] {
    } else {
      UndisturbedRegistered(steps[0].world, steps[1..], b, l);
    }
  }

  lemma {:induction false} StaysRegistered<P, L>(w: World<P, L>, hostname: string, steps: seq<Step<P, L>>, b: P, l: L)
    requires Run(w, hostname, steps) && Undisturbed(w, steps, b, l)
    requires b in w.nodes && l in w.nodes[b].listeners
    ensures b in Last(w, steps).nodes && l in Last(w, steps).nodes[b].listeners
    decreases |steps|
  {
    hide Next, Clears;
    if steps == [] {
    } else {
      StepKeeps(w, hostname, steps[0], b, l);
      StaysRegistered(steps[0].world, hostname, steps[1..], b, l);
    }
  }

  // ---------------------------------------------------------------- two short runs

  /** The newly constructed objects b and p. */
  ghost function TwoObjects<P, L>(b: P, p: P): World<P, L> {
    var n := Node("", 0, false, false, {}, map[], map[], {});
    World(map[b := n, p := n], {})
  }

  /** The world after an operation that is not a browse. */
  ghost function Acted<P, L>(w: World<P, L>, op: Op<P, L>, hostname: string): Step<P, L>
    requires op.id in w.nodes
  {
    Step(op, After(w, op, hostname), [])
  }

  /** The browse by b of a directory that holds no object but p, reporting p if it has changed. */
  ghost function Browsed<P, L>(w: World<P, L>, b: P, p: P): Step<P, L>
    requires b in w.nodes && p in w.nodes
  {
    var found := if p in w.directory then map[w.nodes[p].name := Values(w.nodes[p].data)] else map[];
    var known := w.nodes[b].known;
    Step(Browse(b), Put(w, b, w.nodes[b].(known := w.directory, found := found)),
         if p in w.directory <==> p in known then [] else [Note(p in w.directory, p, w.nodes[p].name)])
  }

  lemma BrowsedIsNext<P, L>(w: World<P, L>, b: P, p: P, hostname: string)
    requires Closed(w) && b in w.nodes && p in w.nodes && w.directory <= {p} && w.nodes[b].known <= {p}
    ensures var s := Browsed(w, b, p); Next(w, s.op, hostname, s.world, s.notes) && Closed(s.world)
  {
    var s := Browsed(w, b, p);
    assert FoundIn(w, s.world.nodes[b].found);
    assert s.notes != [] ==> s.notes[0].peer == p;
    assert NotesFor(w, w.nodes[b].known, s.notes);
  }

  lemma ActedIsNext<P, L>(w: World<P, L>, op: Op<P, L>, hostname: string)
    requires Closed(w) && op.id in w.nodes && !op.Browse?
    ensures var s := Acted(w, op, hostname); Next(w, s.op, hostname, s.world, s.notes) && Closed(s.world)
  {}

  /** A run in which a listener hears "added" twice in a row about one peer, which never left:
      register, announce, browse, end browsing, browse. */
  lemma AddedTwice<P, L>(b: P, p: P, l: L, hostname: string) returns (steps: seq<Step<P, L>>)
    requires b != p
    ensures var w := TwoObjects(b, p);
            && Initial(w) && Run(w, hostname, steps) && Heard(w, steps, b, l, p) == [true, true]
            && |steps| == 5 && forall i :: 0 <= i < |steps| ==> steps[i].op != Withdraw(p)
  {
    hide Next, FoundIn, NotesFor, Closed;
    var w: World<P, L> := TwoObjects(b, p);
    InitialConsistent(w);
    var s1 := Acted(w, AddListener(b, Some(l)), hostname);
    TwoObjectsClosed<P, L>(b, p);
    ActedIsNext(w, s1.op, hostname);
    var s2 := Acted(s1.world, Announce(p, 1, "p"), hostname);
    ActedIsNext(s1.world, s2.op, hostname);
    var s3 := Browsed(s2.world, b, p);
    BrowsedIsNext(s2.world, b, p, hostname);
    var s4 := Acted(s3.world, EndBrowsing(b), hostname);
    ActedIsNext(s3.world, s4.op, hostname);
    var s5 := Browsed(s4.world, b, p);
    BrowsedIsNext(s4.world, b, p, hostname);
    steps := [s1, s2, s3, s4, s5];
    RunOfFive(w, hostname, s1, s2, s3, s4, s5);
    HeardOfFive(w, s1, s2, s3, s4, s5, b, l, p);
  }

  /** A run in which a removal is told, with the empty name: announce, browse, withdraw, browse. */
  lemma RemovalTold<P, L>(b: P, p: P, hostname: string) returns (steps: seq<Step<P, L>>)
    requires b != p
    ensures var w := TwoObjects(b, p);
            && Initial(w) && Run(w, hostname, steps) && |steps| == 4
            && steps[1].notes == [Note(true, p, "p")] && steps[3].notes == [Note(false, p, "")]
  {
    hide Next, FoundIn, NotesFor, Closed;
    var w: World<P, L> := TwoObjects(b, p);
    InitialConsistent(w);
    TwoObjectsClosed<P, L>(b, p);
    var s1 := Acted(w, Announce(p, 1, "p"), hostname);
    ActedIsNext(w, s1.op, hostname);
    var s2 := Browsed(s1.world, b, p);
    BrowsedIsNext(s1.world, b, p, hostname);
    var s3 := Acted(s2.world, Withdraw(p), hostname);
    ActedIsNext(s2.world, s3.op, hostname);
    var s4 := Browsed(s3.world, b, p);
    BrowsedIsNext(s3.world, b, p, hostname);
    steps := [s1, s2, s3, s4];
    RunOfFour(w, hostname, s1, s2, s3, s4);
  }

  lemma HeardOfFive<P, L>(w: World<P, L>, s1: Step<P, L>, s2: Step<P, L>, s3: Step<P, L>,
                          s4: Step<P, L>, s5: Step<P, L>, b: P, l: L, peer: P)
    requires s1.op != Browse(b) && s2.op != Browse(b) && s4.op != Browse(b)
    requires s3.op == Browse(b) && b in s2.world.nodes && l in s2.world.nodes[b].listeners
    requires s5.op == Browse(b) && b in s4.world.nodes && l in s4.world.nodes[b].listeners
    ensures Heard(w, [s1, s2, s3, s4, s5], b, l, peer) == Kinds(s3.notes, peer) + Kinds(s5.notes, peer)
  {
    hide Kinds;
    assert [s1, s2, s3, s4, s5][1..] == [s2, s3, s4, s5];
    assert [s2, s3, s4, s5][1..] == [s3, s4, s5];
    assert [s3, s4, s5][1..] == [s4, s5];
    assert [s4, s5][1..] == [s5];
    assert [s5][1..] == [];
    assert Heard(s4.world, [s5], b, l, peer) == Kinds(s5.notes, peer);
    assert Heard(s3.world, [s4, s5], b, l, peer) == Kinds(s5.notes, peer);
    assert Heard(s2.world, [s3, s4, s5], b, l, peer) == Kinds(s3.notes, peer) + Kinds(s5.notes, peer);
    assert Heard(s1.world, [s2, s3, s4, s5], b, l, peer) == Kinds(s3.notes, peer) + Kinds(s5.notes, peer);
  }

  lemma TwoObjectsClosed<P, L>(b: P, p: P)
    ensures Initial(TwoObjects<P, L>(b, p)) && Closed(TwoObjects<P, L>(b, p))
  {}

  lemma RunOfFour<P, L>(w: World<P, L>, hostname: string, s1: Step<P, L>, s2: Step<P, L>,
                        s3: Step<P, L>, s4: Step<P, L>)
    requires Next(w, s1.op, hostname, s1.world, s1.notes)
    requires Next(s1.world, s2.op, hostname, s2.world, s2.notes)
    requires Next(s2.world, s3.op, hostname, s3.world, s3.notes)
    requires Next(s3.world, s4.op, hostname, s4.world, s4.notes)
    ensures Run(w, hostname, [s1, s2, s3, s4]) && Last(w, [s1, s2, s3, s4]) == s4.world
  {
    hide Next;
    RunAppend(w, hostname, [], s1);
    assert [] + [s1] == [s1] && [s1] + [s2] == [s1, s2] && [s1, s2] + [s3] == [s1, s2, s3];
    RunAppend(w, hostname, [s1], s2);
    RunAppend(w, hostname, [s1, s2], s3);
    RunAppend(w, hostname, [s1, s2, s3], s4);
    assert [s1, s2, s3] + [s4] == [s1, s2, s3, s4];
  }

  lemma RunOfFive<P, L>(w: World<P, L>, hostname: string, s1: Step<P, L>, s2: Step<P, L>, s3: Step<P, L>,
                        s4: Step<P, L>, s5: Step<P, L>)
    requires Next(w, s1.op, hostname, s1.world, s1.notes)
    requires Next(s1.world, s2.op, hostname, s2.world, s2.notes)
    requires Next(s2.world, s3.op, hostname, s3.world, s3.notes)
    requires Next(s3.world, s4.op, hostname, s4.world, s4.notes)
    requires Next(s4.world, s5.op, hostname, s5.world, s5.notes)
    ensures Run(w, hostname, [s1, s2, s3, s4, s5])
  {
    hide Next;
    RunOfFour(w, hostname, s1, s2, s3, s4);
    RunAppend(w, hostname, [s1, s2, s3, s4], s5);
    assert [s1, s2, s3, s4] + [s5] == [s1, s2, s3, s4, s5];
  }

  // ---------------------------------------------------------------- names in notes

  /** Every note of a "removed" event carries the empty name: withdrawing clears the name
      before the browser reports it, so a listener cannot tell which instance is gone. An
      "added" note carries the announced name. */
  lemma RemovedNameLost<P, L>(w: World<P, L>, op: Op<P, L>, hostname: string, w': World<P, L>,
                              notes: seq<Note<P>>, i: nat)
    requires Consistent(w) && Next(w, op, hostname, w', notes) && i < |notes|
    ensures !notes[i].added ==> notes[i].name == ""
    ensures notes[i].added ==> notes[i].peer in w.directory && notes[i].name == w.nodes[notes[i].peer].name
  {
    hide FoundIn;
  }

  /** So it is in every run: no "removed" event ever names its instance. */
  lemma RemovedNameLostInRuns<P, L>(w: World<P, L>, hostname: string, steps: seq<Step<P, L>>, s: Step<P, L>, i: nat)
    requires Initial(w) && Run(w, hostname, steps + [s]) && i < |s.notes| && !s.notes[i].added
    ensures s.notes[i].name == ""
  {
    hide Next, Consistent, Initial;
    InitialConsistent(w);
    RunAppend(w, hostname, steps, s);
    RunConsistent(w, hostname, steps);
    RemovedNameLost(Last(w, steps), s.op, hostname, s.world, s.notes, i);
  }

  // ---------------------------------------------------------------- what is found

  /** Lookups of servus.cpp in the instance map. */
  function Get(found: map<string, KVMap>, instance: string, key: string): string {
    if instance in found && key in found[instance] then found[instance][key] else ""
  }

  predicate ContainsKey(found: map<string, KVMap>, instance: string, key: string) {
    instance in found && key in found[instance]
  }

  function GetOwn(data: KVMap, key: string): string {
    if key in data then data[key] else ""
  }

  ghost predicate UniqueName<P, L>(w: World<P, L>, p: P)
    requires w.directory <= w.nodes.Keys && p in w.directory
  {
    forall q :: q in w.directory && w.nodes[q].name == w.nodes[p].name ==> q == p
  }

  /** After a browse, whatever was found before: for every announced object with a unique
      name the browser's lookups agree with the object's own, plus the default host entry. */
  lemma FoundAgrees<P, L>(w: World<P, L>, b: P, hostname: string, w': World<P, L>,
                          notes: seq<Note<P>>, p: P, key: string)
    requires Next(w, Browse(b), hostname, w', notes) && p in w.directory && UniqueName(w, p)
    ensures var found, n := w'.nodes[b].found, w.nodes[p];
            && (ContainsKey(found, n.name, key) <==> key in n.data || key == "servus_host")
            && (key in n.data ==> Get(found, n.name, key) == GetOwn(n.data, key))
            && (key !in n.data ==> Get(found, n.name, key) == if key == "servus_host" then "localhost" else "")
  {
    hide NotesFor;
    var name := w.nodes[p].name;
    var q :| q in w.directory && w.nodes[q].name == name && w'.nodes[b].found[name] == Values(w.nodes[q].data);
  }

  /** Some announced object has the name. */
  ghost predicate Announces<P, L>(w: World<P, L>, name: string) {
    exists p :: p in w.nodes && w.nodes[p].announced && w.nodes[p].name == name
  }

  /** The names found are exactly those of the announced objects. */
  lemma FoundNames<P, L>(w: World<P, L>, b: P, hostname: string, w': World<P, L>, notes: seq<Note<P>>, name: string)
    requires Consistent(w) && Next(w, Browse(b), hostname, w', notes)
    ensures name in w'.nodes[b].found <==> Announces(w, name)
  {
    hide NotesFor;
    if name in w'.nodes[b].found {
      var p :| p in w.directory && w.nodes[p].name == name;
      assert p in w.nodes && w.nodes[p].announced;
    }
  }

  /** A discovery: begin, browse, and end only if the session was not open before. */
  ghost predicate Discovers<P, L>(w: World<P, L>, b: P, hostname: string,
                                  w1: World<P, L>, w2: World<P, L>, notes: seq<Note<P>>, w3: World<P, L>) {
    && Next(w, BeginBrowsing(b), hostname, w1, [])
    && Next(w1, Browse(b), hostname, w2, notes)
    && if w.nodes[b].browsing then w3 == w2 else Next(w2, EndBrowsing(b), hostname, w3, [])
  }

  /** It finds exactly the names of the announced objects and leaves the session as it was. In
      a session of its own it reports every announced object as added and then forgets it. */
  lemma DiscoverEffect<P, L>(w: World<P, L>, b: P, hostname: string,
                             w1: World<P, L>, w2: World<P, L>, notes: seq<Note<P>>, w3: World<P, L>)
    requires Consistent(w) && Discovers(w, b, hostname, w1, w2, notes, w3)
    ensures Consistent(w3) && b in w.nodes && b in w3.nodes
    ensures w3.nodes[b].browsing == w.nodes[b].browsing && w3.directory == w.directory
    ensures w3.nodes[b].known == if w.nodes[b].browsing then w.directory else {}
    ensures NotesFor(w, if w.nodes[b].browsing then w.nodes[b].known else {}, notes)
    ensures forall name :: name in w3.nodes[b].found <==> Announces(w, name)
  {
    hide FoundIn, NotesFor, Consistent, Announces;
    NextConsistent(w, BeginBrowsing(b), hostname, w1, []);
    NextConsistent(w1, Browse(b), hostname, w2, notes);
    if !w.nodes[b].browsing {
      NextConsistent(w2, EndBrowsing(b), hostname, w3, []);
    }
    ConsistentIsClosed(w);
    BrowseIsReported(w1, hostname, Step(Browse(b), w2, notes), b);
    SameNotes(w, w1, w1.nodes[b].known, notes);
    forall name: string
      ensures name in w3.nodes[b].found <==> Announces(w, name)
    {
      FoundNames(w1, b, hostname, w2, notes, name);
      SameNames(w, w1, b, name);
    }
  }

  /** The notes of a browse depend on the names and the directory only. */
  lemma SameNotes<P, L>(w: World<P, L>, w1: World<P, L>, known: set<P>, notes: seq<Note<P>>)
    requires w.nodes.Keys == w1.nodes.Keys && w.directory == w1.directory
    requires w.directory <= w.nodes.Keys && known <= w.nodes.Keys
    requires forall p :: p in w.nodes ==> w1.nodes[p].name == w.nodes[p].name
    ensures NotesFor(w1, known, notes) <==> NotesFor(w, known, notes)
  {}

  lemma ConsistentIsClosed<P, L>(w: World<P, L>)
    requires Consistent(w)
    ensures Closed(w)
  {}

  lemma SameNames<P, L>(w: World<P, L>, w1: World<P, L>, b: P, name: string)
    requires b in w.nodes && w1.nodes.Keys == w.nodes.Keys
    requires forall p :: p in w.nodes ==>
               w1.nodes[p].announced == w.nodes[p].announced && w1.nodes[p].name == w.nodes[p].name
    ensures Announces(w, name) <==> Announces(w1, name)
  {
    if p :| p in w.nodes && w.nodes[p].announced && w.nodes[p].name == name {
      assert p in w1.nodes && w1.nodes[p].announced;
    }
    if p :| p in w1.nodes && w1.nodes[p].announced && w1.nodes[p].name == name {
      assert p in w.nodes && w.nodes[p].announced;
    }
  }
}
