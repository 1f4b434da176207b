/** What an object holds after a run, told by the last operations that concern it. */
module DiscoveryState {
  import opened Wrappers
  import opened DiscoveryModel
  import opened DiscoveryNames

  /** The last words on an object: the value set for one key, its announcement, its session, and
      whether one listener is registered with it. */
  datatype Record = Record(value: Option<string>, announced: bool, name: string, port: nat,
                           browsing: bool, listening: bool)

  const BLANK := Record(None, false, "", 0, false, false)

  /** The record of object p, key and listener l after one more operation. */
  function Recorded<P(==), L(==)>(r: Record, op: Op<P, L>, hostname: string, p: P, key: string, l: L): Record {
    if op.id != p then r
    else
      match op
      case Set(_, k, value) => if k == key then r.(value := Some(value)) else r
      case Announce(_, port, instance) => r.(announced := true, name := AnnouncedName(instance, hostname), port := port)
      case Withdraw(_) => r.(announced := false, name := "", port := 0)
      case BeginBrowsing(_) => r.(browsing := true)
      case EndBrowsing(_) => r.(browsing := false)
      case AddListener(_, listener) => if listener == Some(l) then r.(listening := true) else r
      case RemoveListener(_, listener) => if listener == Some(l) then r.(listening := false) else r
      case Browse(_) => r
  }

  ghost function RecordedAll<P, L>(r: Record, steps: seq<Step<P, L>>, hostname: string, p: P, key: string, l: L): Record
    decreases |steps|
  {
    if steps == [] then r
    else RecordedAll(Recorded(r, steps[0].op, hostname, p, key, l), steps[1..], hostname, p, key, l)
  }

  /** The object is as recorded. */
  ghost predicate Fits<P, L>(n: Node<P, L>, r: Record, key: string, l: L) {
    && (key in n.data <==> r.value.Some?)
    && GetOwn(n.data, key) == (match r.value case None => "" case Some(v) => v)
    && n.announced == r.announced && n.name == r.name && n.port == r.port
    && n.browsing == r.browsing
    && (l in n.listeners <==> r.listening)
  }

  ghost predicate Holds<P, L>(w: World<P, L>, r: Record, p: P, key: string, l: L) {
    p in w.nodes && Fits(w.nodes[p], r, key, l)
  }

  lemma StepHolds<P, L>(w: World<P, L>, hostname: string, s: Step<P, L>, r: Record, p: P, key: string, l: L)
    requires Next(w, s.op, hostname, s.world, s.notes) && Holds(w, r, p, key, l)
    ensures Holds(s.world, Recorded(r, s.op, hostname, p, key, l), p, key, l)
  {
    hide Next, Fits, Recorded;
    if s.op.id != p {
      OthersKept(w, hostname, s, p);
      OthersRecorded(r, s.op, hostname, p, key, l);
    } else if s.op.Browse? {
      BrowseFits(w, hostname, s, r, key, l);
    } else {
      ActionFits(w, hostname, s, r, key, l);
    }
  }

  lemma OthersKept<P, L>(w: World<P, L>, hostname: string, s: Step<P, L>, p: P)
    requires Next(w, s.op, hostname, s.world, s.notes) && p in w.nodes && s.op.id != p
    ensures p in s.world.nodes && s.world.nodes[p] == w.nodes[p]
  {
    hide FoundIn, NotesFor;
  }

  lemma OthersRecorded<P, L>(r: Record, op: Op<P, L>, hostname: string, p: P, key: string, l: L)
    requires op.id != p
    ensures Recorded(r, op, hostname, p, key, l) == r
  {}

  lemma BrowseFits<P, L>(w: World<P, L>, hostname: string, s: Step<P, L>, r: Record, key: string, l: L)
    requires Next(w, s.op, hostname, s.world, s.notes) && s.op.Browse? && Fits(w.nodes[s.op.id], r, key, l)
    ensures Holds(s.world, Recorded(r, s.op, hostname, s.op.id, key, l), s.op.id, key, l)
  {
    hide FoundIn, NotesFor;
  }

  lemma ActionFits<P, L>(w: World<P, L>, hostname: string, s: Step<P, L>, r: Record, key: string, l: L)
    requires Next(w, s.op, hostname, s.world, s.notes) && !s.op.Browse? && Fits(w.nodes[s.op.id], r, key, l)
    ensures Holds(s.world, Recorded(r, s.op, hostname, s.op.id, key, l), s.op.id, key, l)
  {
    hide FoundIn, NotesFor;
    match s.op
    case Set(_, _, _) =>
    case Announce(_, _, _) =>
    case Withdraw(_) =>
    case BeginBrowsing(_) =>
    case EndBrowsing(_) =>
    case AddListener(_, _) =>
    case RemoveListener(_, _) =>
    case Browse(_) =>
  }

  /** After every run the object is as its last operations say. */
  lemma {:induction false} RunHolds<P, L>(w: World<P, L>, hostname: string, steps: seq<Step<P, L>>,
                                          r: Record, p: P, key: string, l: L)
    requires Run(w, hostname, steps) && Holds(w, r, p, key, l)
    ensures Holds(Last(w, steps), RecordedAll(r, steps, hostname, p, key, l), p, key, l)
    decreases |steps|
  {
    hide Next, Holds, Recorded;
    if steps == [] {
    } else {
      StepHolds(w, hostname, steps[0], r, p, key, l);
      RunHolds(steps[0].world, hostname, steps[1..], Recorded(r, steps[0].op, hostname, p, key, l), p, key, l);
    }
  }

  /** From newly constructed objects: after every run and a browse, what is found under the name
      of an announced object, when no other bears it, is the value that was last set there, or
      else the default host entry or nothing. */
  lemma LastSetIsFound<P, L>(w: World<P, L>, hostname: string, steps: seq<Step<P, L>>, s: Step<P, L>,
                             b: P, p: P, key: string, l: L)
    requires Initial(w) && Run(w, hostname, steps + [s]) && s.op == Browse(b) && p in w.nodes
    requires var last := Last(w, steps); last.directory <= last.nodes.Keys
    requires p in Last(w, steps).directory && UniqueName(Last(w, steps), p)
    ensures var r := RecordedAll(BLANK, steps, hostname, p, key, l);
            && r.announced && b in s.world.nodes
            && var found := s.world.nodes[b].found;
               && (ContainsKey(found, r.name, key) <==> r.value.Some? || key == "servus_host")
               && Get(found, r.name, key) ==
                  match r.value
                  case Some(v) => v
                  case None => if key == "servus_host" then "localhost" else ""
  {
    hide Next, Consistent, Initial, RecordedAll, UniqueName, Get, ContainsKey;
    InitialConsistent(w);
    InitialHolds(w, p, key, l);
    RunAppend(w, hostname, steps, s);
    RunConsistent(w, hostname, steps);
    RunHolds(w, hostname, steps, BLANK, p, key, l);
    var last := Last(w, steps);
    ConsistentFlag(last, p);
    BrowserKnown(last, b, hostname, s);
    FoundAgrees(last, b, hostname, s.world, s.notes, p, key);
  }

  lemma InitialHolds<P, L>(w: World<P, L>, p: P, key: string, l: L)
    requires Initial(w) && p in w.nodes
    ensures Holds(w, BLANK, p, key, l)
  {}

  lemma ConsistentFlag<P, L>(w: World<P, L>, p: P)
    requires Consistent(w) && p in w.nodes
    ensures p in w.directory <==> w.nodes[p].announced
  {}

  lemma BrowserKnown<P, L>(w: World<P, L>, b: P, hostname: string, s: Step<P, L>)
    requires Next(w, s.op, hostname, s.world, s.notes) && s.op == Browse(b)
    ensures b in s.world.nodes && w.directory <= w.nodes.Keys
  {
    hide FoundIn, NotesFor;
  }

  /** Under a name that no announced object bears nothing is found. */
  lemma UnknownNotFound<P, L>(w: World<P, L>, b: P, hostname: string, w': World<P, L>, notes: seq<Note<P>>,
                              name: string, key: string)
    requires Consistent(w) && Next(w, Browse(b), hostname, w', notes) && !Announces(w, name)
    ensures b in w'.nodes
    ensures !ContainsKey(w'.nodes[b].found, name, key) && Get(w'.nodes[b].found, name, key) == ""
  {
    hide Consistent, Announces, FoundIn, NotesFor;
    FoundNames(w, b, hostname, w', notes, name);
  }
}
