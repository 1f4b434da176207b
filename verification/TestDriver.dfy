/** The in-process driver: objects over one shared directory. Every method is a step of the
    discovery model. */
module TestDriver {
  import opened Wrappers
  import opened StringOrder
  import opened DiscoveryModel

  /** The shared set of announced objects. */
  class Directory {
    var instances: set<Servus>

    constructor ()
      ensures instances == {}
    {
      instances := {};
    }
  }

  /** A listener records the names it is called with; the ghost log also holds who called
      and about which peer. */
  class Listener {
    var names: seq<string>
    ghost var log: Log

    constructor ()
      ensures names == [] && log == []
    {
      names, log := [], [];
    }

    method InstanceAdded(name: string, ghost browser: Servus, ghost peer: Servus)
      modifies this
      ensures names == old(names) + [name] && log == old(log) + [(browser, Note(true, peer, name))]
    {
      names := names + [name];
      log := log + [(browser, Note(true, peer, name))];
    }

    method InstanceRemoved(name: string, ghost browser: Servus, ghost peer: Servus)
      modifies this
      ensures names == old(names) + [name] && log == old(log) + [(browser, Note(false, peer, name))]
    {
      names := names + [name];
      log := log + [(browser, Note(false, peer, name))];
    }
  }

  type Log = seq<(Servus, Note<Servus>)>

  /** The log entries of notes sent by one browser. */
  ghost function Tagged(browser: Servus, notes: seq<Note<Servus>>): Log {
    seq(|notes|, i requires 0 <= i < |notes| => (browser, notes[i]))
  }

  /** The state of all objects and their directory. */
  ghost function Snapshot(directory: Directory, all: set<Servus>): World<Servus, Listener>
    reads directory, all
  {
    World(map s: Servus | s in all :: s.View(), directory.instances)
  }

  datatype Result = SUCCESS | PENDING

  class Servus {
    const directory: Directory
    const hostname: string
    var instance: string
    var port: nat
    var announced: bool
    var browsing: bool
    var instances: set<Servus>
    var instanceMap: map<string, KVMap>
    var data: KVMap
    var listeners: set<Listener>

    ghost function View(): Node<Servus, Listener>
      reads this
    {
      Node(instance, port, announced, browsing, instances, instanceMap, data, listeners)
    }

    constructor (directory: Directory, hostname: string)
      ensures View() == Node("", 0, false, false, {}, map[], map[], {})
      ensures this.directory == directory && this.hostname == hostname
    {
      this.directory, this.hostname := directory, hostname;
      instance, port, announced, browsing := "", 0, false, false;
      instances, instanceMap, data, listeners := {}, map[], map[], {};
    }

    /** Every method: this object exists in a closed world. */
    ghost predicate Ready(all: set<Servus>)
      reads directory, all
    {
      this in all && Closed(Snapshot(directory, all))
    }

    method PutValue(key: string, value: string, ghost all: set<Servus>)
      requires Ready(all)
      modifies this`data
      ensures Next(old(Snapshot(directory, all)), Op.Set(this, key, value), hostname, Snapshot(directory, all), [])
    {
      hide Closed, FoundIn, NotesFor;
      data := data[key := value];
      assert Snapshot(directory, all).nodes == old(Snapshot(directory, all)).nodes[this := View()];
    }

    method Announce(port: nat, instance: string, ghost all: set<Servus>)
      requires Ready(all)
      modifies this`port, this`instance, this`announced, directory
      ensures Next(old(Snapshot(directory, all)), Op.Announce(this, port, instance), hostname,
                   Snapshot(directory, all), [])
    {
      hide Closed, FoundIn, NotesFor;
      this.port := port;
      if instance == "" {
        this.instance := hostname;
      } else {
        this.instance := instance;
      }
      directory.instances := directory.instances + {this};
      announced := true;
      assert Snapshot(directory, all).nodes == old(Snapshot(directory, all)).nodes[this := View()];
    }

    method Withdraw(ghost all: set<Servus>)
      requires Ready(all)
      modifies this`port, this`instance, this`announced, directory
      ensures Next(old(Snapshot(directory, all)), Op.Withdraw(this), hostname, Snapshot(directory, all), [])
    {
      hide Closed, FoundIn, NotesFor;
      announced := false;
      directory.instances := directory.instances - {this};
      port := 0;
      instance := "";
      assert Snapshot(directory, all).nodes == old(Snapshot(directory, all)).nodes[this := View()];
    }

    method BeginBrowsing(ghost all: set<Servus>) returns (result: Result)
      requires Ready(all)
      modifies this`instances, this`browsing
      ensures Next(old(Snapshot(directory, all)), Op.BeginBrowsing(this), hostname, Snapshot(directory, all), [])
      ensures result == if old(browsing) then PENDING else SUCCESS
    {
      hide Closed, FoundIn, NotesFor;
      if browsing {
        return PENDING;
      }
      instances := {};
      browsing := true;
      assert Snapshot(directory, all).nodes == old(Snapshot(directory, all)).nodes[this := View()];
      return SUCCESS;
    }

    method EndBrowsing(ghost all: set<Servus>)
      requires Ready(all)
      modifies this`instances, this`browsing
      ensures Next(old(Snapshot(directory, all)), Op.EndBrowsing(this), hostname, Snapshot(directory, all), [])
    {
      hide Closed, FoundIn, NotesFor;
      browsing := false;
      instances := {};
      assert Snapshot(directory, all).nodes == old(Snapshot(directory, all)).nodes[this := View()];
    }

    method AddListener(listener: Option<Listener>, ghost all: set<Servus>)
      requires Ready(all)
      modifies this`listeners
      ensures Next(old(Snapshot(directory, all)), Op.AddListener(this, listener), hostname,
                   Snapshot(directory, all), [])
      ensures listeners == old(listeners) + if listener.Some? then {listener.value} else {}
    {
      hide Closed, FoundIn, NotesFor;
      if listener.Some? {
        listeners := listeners + {listener.value};
        assert Snapshot(directory, all).nodes == old(Snapshot(directory, all)).nodes[this := View()];
      }
    }

    method RemoveListener(listener: Option<Listener>, ghost all: set<Servus>)
      requires Ready(all)
      modifies this`listeners
      ensures Next(old(Snapshot(directory, all)), Op.RemoveListener(this, listener), hostname,
                   Snapshot(directory, all), [])
      ensures listeners == old(listeners) - if listener.Some? then {listener.value} else {}
    {
      hide Closed, FoundIn, NotesFor;
      if listener.Some? {
        listeners := listeners - {listener.value};
        assert Snapshot(directory, all).nodes == old(Snapshot(directory, all)).nodes[this := View()];
      }
    }

    /** The values an object is discovered with: the default host entry, then its own pairs. */
    method CopyValues(own: KVMap) returns (values: KVMap)
      ensures values == Values(own)
    {
      values := map[HOST_KEY := "localhost"];
      var rest := own.Keys;
      while rest != {}
        invariant rest <= own.Keys
        invariant values == map[HOST_KEY := "localhost"] + (map k | k in own && k !in rest :: own[k])
        decreases |rest|
      {
        var j :| j in rest;
        values := values[j := own[j]];
        rest := rest - {j};
      }
      assert own == map k | k in own && k !in rest :: own[k];
    }

    /** The instance map of the objects now in the directory. */
    method Collect(ghost all: set<Servus>) returns (found: map<string, KVMap>)
      requires Ready(all)
      ensures FoundIn(Snapshot(directory, all), found)
    {
      found := map[];
      var rest := directory.instances;
      ghost var w := Snapshot(directory, all);
      while rest != {}
        invariant rest <= directory.instances
        invariant forall p :: p in directory.instances && p !in rest ==> w.nodes[p].name in found
        invariant forall n :: n in found ==>
                    exists p :: p in w.directory && w.nodes[p].name == n && found[n] == Values(w.nodes[p].data)
        decreases |rest|
      {
        var i :| i in rest;
        var values := CopyValues(i.data);
        found := found[i.instance := values];
        assert w.nodes[i].name == i.instance;
        rest := rest - {i};
      }
    }

    /** Calls every listener once. */
    method Notify(added: bool, peer: Servus)
      modifies listeners
      ensures forall l :: l in listeners ==> l.log == old(l.log) + [(this, Note(added, peer, peer.instance))]
    {
      var rest := listeners;
      while rest != {}
        modifies listeners
        invariant rest <= listeners
        invariant forall l :: l in rest ==> l.log == old(l.log)
        invariant forall l :: l in listeners && l !in rest ==>
                    l.log == old(l.log) + [(this, Note(added, peer, peer.instance))]
        decreases |rest|
      {
        var l :| l in rest;
        if added {
          l.InstanceAdded(peer.instance, this, peer);
        } else {
          l.InstanceRemoved(peer.instance, this, peer);
        }
        rest := rest - {l};
      }
    }

    /** Since the logs were base, every listener was told exactly the notes. */
    ghost predicate Logged(base: map<Listener, Log>, notes: seq<Note<Servus>>)
      reads this, listeners
    {
      forall l :: l in listeners ==> l in base && l.log == base[l] + Tagged(this, notes)
    }

    /** The second half of Browse: every peer that entered or left is reported to the
        listeners and entered into or taken out of the set of seen peers. */
    method ReportDifference(ghost w: World<Servus, Listener>) returns (ghost notes: seq<Note<Servus>>)
      requires w.directory == directory.instances && w.directory <= w.nodes.Keys && instances <= w.nodes.Keys
      requires forall p :: p in w.nodes ==> w.nodes[p].name == p.instance
      modifies this`instances, listeners
      ensures instances == directory.instances
      ensures NotesFor(w, old(instances), notes)
      ensures forall l :: l in listeners ==> l.log == old(l.log) + Tagged(this, notes)
    {
      hide NotesFor, Reported, Tagged, Logged, Difference;
      ghost var known := instances;
      ghost var base := map l | l in listeners :: l.log;
      LoggedNone(base);
      var diff := Difference(directory.instances, instances);
      DifferenceWithin(w.directory, known, w.nodes.Keys);
      notes := [];
      ReportedNone(w, known);
      var rest := diff;
      assert diff - rest == {};
      while rest != {}
        modifies this`instances, listeners
        invariant rest <= diff
        invariant Reported(w, known, instances, diff - rest, notes)
        invariant Logged(base, notes)
        decreases rest
      {
        var i :| i in rest;
        OneMoreDone(diff, rest, i);
        ReportedNext(w, known, instances, diff - rest, notes, i);
        assert w.nodes[i].name == i.instance;
        notes := ReportPeer(i, base, notes);
        rest := rest - {i};
      }
      assert diff - rest == diff;
      ReportedAll(w, known, instances, notes);
      LoggedAll(base, notes);
    }

    lemma LoggedNone(base: map<Listener, Log>)
      requires base == map l | l in listeners :: l.log
      ensures Logged(base, [])
    {}

    lemma LoggedAll(base: map<Listener, Log>, notes: seq<Note<Servus>>)
      requires Logged(base, notes)
      ensures forall l :: l in listeners ==> l in base && l.log == base[l] + Tagged(this, notes)
    {}

    /** The body of the loop over the peers that differ. */
    method ReportPeer(i: Servus, ghost base: map<Listener, Log>, ghost sent: seq<Note<Servus>>)
      returns (ghost notes: seq<Note<Servus>>)
      requires Logged(base, sent)
      modifies this`instances, listeners
      ensures var added := i !in old(instances);
              && instances == (if added then old(instances) + {i} else old(instances) - {i})
              && notes == sent + [Note(added, i, i.instance)]
      ensures Logged(base, notes)
    {
      hide Tagged;
      notes := sent + [Note(i !in instances, i, i.instance)];
      TaggedOne(sent, Note(i !in instances, i, i.instance));
      if i !in instances {
        instances := instances + {i};
        Notify(true, i);
      } else {
        Notify(false, i);
        instances := instances - {i};
      }
    }

    method Browse(ghost all: set<Servus>) returns (ghost notes: seq<Note<Servus>>)
      requires Ready(all)
      modifies this`instances, this`instanceMap, listeners
      ensures Next(old(Snapshot(directory, all)), Op.Browse(this), hostname, Snapshot(directory, all), notes)
      ensures forall l :: l in listeners ==> l.log == old(l.log) + Tagged(this, notes)
    {
      hide Next, Closed, FoundIn, NotesFor, Tagged, Snapshot;
      ghost var w, n := Snapshot(directory, all), View();
      SnapshotIs(all, w);
      KnownWithin(w, this);
      instanceMap := Collect(all);
      ghost var found := instanceMap;
      notes := ReportDifference(w);
      OnlyThis(all, w, n.(known := w.directory, found := found));
      BrowseIsNext(w, this, hostname, Snapshot(directory, all), found, notes);
    }

    lemma SnapshotIs(all: set<Servus>, w: World<Servus, Listener>)
      requires w == Snapshot(directory, all)
      ensures w.directory == directory.instances && w.nodes.Keys == all
      ensures forall p :: p in all ==> w.nodes[p] == p.View()
    {}

    /** The world when no other object has changed. */
    lemma OnlyThis(all: set<Servus>, w: World<Servus, Listener>, n: Node<Servus, Listener>)
      requires this in all && w.nodes.Keys == all && View() == n
      requires forall p :: p in all && p != this ==> w.nodes[p] == p.View()
      ensures Snapshot(directory, all).nodes == w.nodes[this := n]
      ensures Snapshot(directory, all).directory == directory.instances
    {}

    lemma KnownWithin(w: World<Servus, Listener>, p: Servus)
      requires Closed(w) && p in w.nodes
      ensures w.directory <= w.nodes.Keys && w.nodes[p].known <= w.nodes.Keys
    {}

    lemma TaggedOne(notes: seq<Note<Servus>>, n: Note<Servus>)
      ensures Tagged(this, notes + [n]) == Tagged(this, notes) + [(this, n)]
    {}

    /** The names found by the last browse, in map order. */
    method GetInstances() returns (names: seq<string>)
      ensures Ascending(names) && forall n :: n in names <==> n in instanceMap
    {
      names := CollectKeys(instanceMap.Keys);
    }

    /** The keys found on an instance, in map order; none for an unknown instance. */
    method GetKeysOf(instance: string) returns (keys: seq<string>)
      ensures Ascending(keys) && forall k :: k in keys <==> ContainsKey(instanceMap, instance, k)
    {
      if instance !in instanceMap {
        return [];
      }
      keys := CollectKeys(instanceMap[instance].Keys);
    }

    /** This object's own keys, in map order. */
    method GetKeys() returns (keys: seq<string>)
      ensures Ascending(keys) && forall k :: k in keys <==> k in data
    {
      keys := CollectKeys(data.Keys);
    }

    /** The sorted distinct names of exactly the announced objects; a session that was open
        stays open, one that was not is closed again. The listeners are told what changed
        since an open session's last browse; without one they are told of every announced
        object, which is then forgotten. */
    method Discover(ghost all: set<Servus>) returns (names: seq<string>, ghost notes: seq<Note<Servus>>)
      requires Ready(all) && Consistent(Snapshot(directory, all))
      modifies this`instances, this`instanceMap, this`browsing, listeners
      ensures Ascending(names)
      ensures forall n :: n in names <==> Announces(old(Snapshot(directory, all)), n)
      ensures browsing == old(browsing) && instances == if browsing then directory.instances else {}
      ensures var w := old(Snapshot(directory, all));
              NotesFor(w, if browsing then w.nodes[this].known else {}, notes)
      ensures forall l :: l in listeners ==> l.log == old(l.log) + Tagged(this, notes)
      ensures Ready(all) && Consistent(Snapshot(directory, all))
    {
      hide *;
      ghost var w := Snapshot(directory, all);
      notes := Explore(all);
      names := GetInstances();
      assert forall n :: n in names <==> Announces(w, n);
    }

    /** Begin browsing, browse, and end what this call began. */
    method Explore(ghost all: set<Servus>) returns (ghost notes: seq<Note<Servus>>)
      requires Ready(all) && Consistent(Snapshot(directory, all))
      modifies this`instances, this`instanceMap, this`browsing, listeners
      ensures forall n :: n in instanceMap <==> Announces(old(Snapshot(directory, all)), n)
      ensures browsing == old(browsing) && instances == if browsing then directory.instances else {}
      ensures var w := old(Snapshot(directory, all));
              NotesFor(w, if browsing then w.nodes[this].known else {}, notes)
      ensures forall l :: l in listeners ==> l.log == old(l.log) + Tagged(this, notes)
      ensures Ready(all) && Consistent(Snapshot(directory, all))
    {
      hide Next, Closed, Consistent, FoundIn, NotesFor, Tagged, Snapshot, Discovers, Announces;
      ghost var w := Snapshot(directory, all);
      SnapshotIs(all, w);
      var res := BeginBrowsing(all);
      ghost var w1 := Snapshot(directory, all);
      StillReady(w, Op.BeginBrowsing(this), w1, []);
      notes := Browse(all);
      ghost var w2 := Snapshot(directory, all);
      StillReady(w1, Op.Browse(this), w2, notes);
      if res == SUCCESS {
        EndBrowsing(all);
      }
      ghost var w3 := Snapshot(directory, all);
      DiscoverIs(w, w1, w2, notes, w3);
      SnapshotIs(all, w3);
    }

    lemma DiscoverIs(w: World<Servus, Listener>, w1: World<Servus, Listener>, w2: World<Servus, Listener>,
                     notes: seq<Note<Servus>>, w3: World<Servus, Listener>)
      requires Consistent(w) && this in w.nodes
      requires Next(w, Op.BeginBrowsing(this), hostname, w1, []) && Next(w1, Op.Browse(this), hostname, w2, notes)
      requires if w.nodes[this].browsing then w3 == w2 else Next(w2, Op.EndBrowsing(this), hostname, w3, [])
      ensures this in w3.nodes && w3.nodes[this].browsing == w.nodes[this].browsing
      ensures w.directory <= w.nodes.Keys && w.nodes[this].known <= w.nodes.Keys && w3.directory == w.directory
      ensures w3.nodes[this].known == if w.nodes[this].browsing then w.directory else {}
      ensures NotesFor(w, if w.nodes[this].browsing then w.nodes[this].known else {}, notes)
      ensures forall n :: n in w3.nodes[this].found <==> Announces(w, n)
      ensures Consistent(w3) && Closed(w3)
    {
      hide Next, Consistent, Announces, NotesFor;
      ConsistentIsClosed(w);
      KnownWithin(w, this);
      assert Discovers(w, this, hostname, w1, w2, notes, w3);
      DiscoverEffect(w, this, hostname, w1, w2, notes, w3);
      ConsistentIsClosed(w3);
    }

    lemma StillReady(w: World<Servus, Listener>, op: Op<Servus, Listener>, w': World<Servus, Listener>,
                     notes: seq<Note<Servus>>)
      requires Consistent(w) && Next(w, op, hostname, w', notes)
      ensures Consistent(w') && Closed(w')
    {
      hide Next;
      NextConsistent(w, op, hostname, w', notes);
    }
  }

  // ---------------------------------------------------------------- runs of many objects

  /** The objects of one directory, their listeners among the given ones. */
  ghost predicate Together(directory: Directory, hostname: string, all: set<Servus>, ears: set<Listener>)
    reads all
  {
    forall s :: s in all ==> s.directory == directory && s.hostname == hostname && s.listeners <= ears
  }

  /** An operation of one of the objects. */
  ghost predicate Admissible(op: Op<Servus, Listener>, all: set<Servus>, ears: set<Listener>) {
    op.id in all && (op.AddListener? && op.listener.Some? ==> op.listener.value in ears)
  }

  /** Carries out one operation on its object. */
  method PerformOne(op: Op<Servus, Listener>, directory: Directory, hostname: string,
                    ghost all: set<Servus>, ghost ears: set<Listener>)
    returns (ghost notes: seq<Note<Servus>>)
    requires Closed(Snapshot(directory, all)) && Together(directory, hostname, all, ears) && Admissible(op, all, ears)
    modifies directory, all, ears
    ensures Next(old(Snapshot(directory, all)), op, hostname, Snapshot(directory, all), notes)
    ensures Together(directory, hostname, all, ears)
    ensures forall l :: l in ears ==> l.log == old(l.log) + Told(old(Snapshot(directory, all)), op, notes, l)
  {
    hide Next, Closed, Snapshot, Tagged;
    notes := [];
    SnapshotHas(directory, all, op.id);
    match op {
      case Set(s, key, value) => s.PutValue(key, value, all);
      case Announce(s, port, instance) => s.Announce(port, instance, all);
      case Withdraw(s) => s.Withdraw(all);
      case BeginBrowsing(s) => var _ := s.BeginBrowsing(all);
      case Browse(s) => notes := s.Browse(all);
      case EndBrowsing(s) => s.EndBrowsing(all);
      case AddListener(s, listener) => s.AddListener(listener, all);
      case RemoveListener(s, listener) => s.RemoveListener(listener, all);
    }
  }

  /** Any sequence of operations of the objects, in any order, is a run of the model. */
  method Perform(ops: seq<Op<Servus, Listener>>, directory: Directory, hostname: string,
                 ghost all: set<Servus>, ghost ears: set<Listener>)
    returns (ghost steps: seq<Step<Servus, Listener>>)
    requires Consistent(Snapshot(directory, all)) && Together(directory, hostname, all, ears)
    requires forall i :: 0 <= i < |ops| ==> Admissible(ops[i], all, ears)
    modifies directory, all, ears
    ensures Run(old(Snapshot(directory, all)), hostname, steps)
    ensures Last(old(Snapshot(directory, all)), steps) == Snapshot(directory, all)
    ensures |steps| == |ops| && forall i :: 0 <= i < |ops| ==> steps[i].op == ops[i]
    ensures Consistent(Snapshot(directory, all))
    ensures forall l :: l in ears ==> l.log == old(l.log) + ToldAll(old(Snapshot(directory, all)), steps, l)
  {
    hide Next, Closed, Consistent, Snapshot, Admissible, Run, Last, Told, ToldAll;
    steps := [];
    ghost var start := Snapshot(directory, all);
    NoSteps(start, hostname);
    var i := 0;
    while i < |ops|
      invariant i <= |ops|
      invariant Consistent(Snapshot(directory, all)) && Together(directory, hostname, all, ears)
      invariant Run(start, hostname, steps) && Last(start, steps) == Snapshot(directory, all)
      invariant forall l :: l in ears ==> l.log == old(l.log) + ToldAll(start, steps, l)
      invariant |steps| == i && forall k :: 0 <= k < i ==> steps[k].op == ops[k]
    {
      ghost var w := Snapshot(directory, all);
      ConsistentIsClosed(w);
      ghost var notes := PerformOne(ops[i], directory, hostname, all, ears);
      ghost var s := Step(ops[i], Snapshot(directory, all), notes);
      RunAppend(start, hostname, steps, s);
      ToldAppend(start, steps, s);
      NextConsistent(w, s.op, hostname, s.world, s.notes);
      steps := steps + [s];
      i := i + 1;
    }
  }

  lemma NoSteps(w: World<Servus, Listener>, hostname: string)
    ensures Run(w, hostname, []) && Last(w, []) == w
    ensures forall l :: ToldAll(w, [], l) == []
  {}

  lemma SnapshotHas(directory: Directory, all: set<Servus>, p: Servus)
    requires p in all
    ensures p in Snapshot(directory, all).nodes && Snapshot(directory, all).nodes[p].listeners == p.listeners
  {}

  // ---------------------------------------------------------------- the listeners' logs

  /** What one operation adds to a listener's log. */
  ghost function Told(w: World<Servus, Listener>, op: Op<Servus, Listener>, notes: seq<Note<Servus>>, l: Listener): Log
  {
    if op.Browse? && op.id in w.nodes && l in w.nodes[op.id].listeners then Tagged(op.id, notes) else []
  }

  ghost function ToldAll(w: World<Servus, Listener>, steps: seq<Step<Servus, Listener>>, l: Listener): Log
    decreases |steps|
  {
    if steps == [] then []
    else Told(w, steps[0].op, steps[0].notes, l) + ToldAll(steps[0].world, steps[1..], l)
  }

  lemma {:induction false} ToldAppend(w: World<Servus, Listener>, steps: seq<Step<Servus, Listener>>,
                                      s: Step<Servus, Listener>)
    ensures forall l :: ToldAll(w, steps + [s], l) == ToldAll(w, steps, l) + Told(Last(w, steps), s.op, s.notes, l)
    decreases |steps|
  {
    hide Told;
    if steps == [] {
      assert [] + [s] == [s] && [s][1..] == [];
    } else {
      ToldAppend(steps[0].world, steps[1..], s);
      assert (steps + [s])[1..] == steps[1..] + [s];
    }
  }

  /** The kind of an entry that b made about the peer. */
  ghost function EventKind(entry: (Servus, Note<Servus>), b: Servus, peer: Servus): seq<bool> {
    if entry.0 == b && entry.1.peer == peer then [entry.1.added] else []
  }

  /** The kinds of a log's events from one browser about one peer. */
  ghost function LogKinds(log: Log, b: Servus, peer: Servus): seq<bool>
    decreases |log|
  {
    if log == [] then []
    else EventKind(log[0], b, peer) + LogKinds(log[1..], b, peer)
  }

  lemma LogKindsStep(log: Log, b: Servus, peer: Servus)
    requires log != []
    ensures LogKinds(log, b, peer) == EventKind(log[0], b, peer) + LogKinds(log[1..], b, peer)
  {}

  lemma {:induction false} LogKindsConcat(x: Log, y: Log, b: Servus, peer: Servus)
    ensures LogKinds(x + y, b, peer) == LogKinds(x, b, peer) + LogKinds(y, b, peer)
    decreases |x|
  {
    hide LogKinds;
    LogKindsNone(b, peer);
    if x == [] {
      assert x + y == y;
    } else {
      LogKindsConcat(x[1..], y, b, peer);
      LogKindsStep(x, b, peer);
      LogKindsStep(x + y, b, peer);
      assert (x + y)[1..] == x[1..] + y;
      Associate(EventKind(x[0], b, peer), LogKinds(x[1..], b, peer), LogKinds(y, b, peer));
    }
  }

  lemma {:induction false} TaggedKinds(a: Servus, notes: seq<Note<Servus>>, b: Servus, peer: Servus)
    ensures LogKinds(Tagged(a, notes), b, peer) == if a == b then Kinds(notes, peer) else []
    decreases |notes|
  {
    if notes == [] {
    } else {
      TaggedKinds(a, notes[1..], b, peer);
      assert Tagged(a, notes)[1..] == Tagged(a, notes[1..]);
    }
  }

  /** A listener's log, restricted to one browser and one peer, is what the model says it
      hears; so the alternation theorems speak about the logs of the objects. */
  lemma {:induction false} LogIsHeard(w: World<Servus, Listener>, steps: seq<Step<Servus, Listener>>,
                                      b: Servus, l: Listener, peer: Servus)
    ensures LogKinds(ToldAll(w, steps, l), b, peer) == Heard(w, steps, b, l, peer)
    decreases |steps|
  {
    hide Kinds, Tagged, LogKinds;
    if steps == [] {
      LogKindsNone(b, peer);
    } else {
      var s := steps[0];
      LogKindsConcat(Told(w, s.op, s.notes, l), ToldAll(s.world, steps[1..], l), b, peer);
      LogKindsNone(b, peer);
      TaggedKinds(s.op.id, s.notes, b, peer);
      LogIsHeard(s.world, steps[1..], b, l, peer);
    }
  }

  /** What a run adds to the log of a listener that stays registered, while the browser's view
      is not cleared and the run ends with a browse: for each peer strictly alternating
      events from "added" on, the last one "added" exactly for the peers in the directory. */
  lemma LogAlternates(w: World<Servus, Listener>, hostname: string, steps: seq<Step<Servus, Listener>>,
                      s: Step<Servus, Listener>, b: Servus, l: Listener, peer: Servus)
    requires Consistent(w) && b in w.nodes && peer in w.nodes
    requires w.nodes[b].known == {} && l in w.nodes[b].listeners
    requires s.op == Op.Browse(b)
    requires Run(w, hostname, steps + [s]) && Undisturbed(w, steps + [s], b, l)
    ensures var heard := LogKinds(ToldAll(w, steps + [s], l), b, peer);
            && Alternates(false, heard)
            && b in s.world.nodes && s.world.nodes[b].known == s.world.directory
            && (peer in s.world.directory <==> heard != [] && heard[|heard| - 1])
  {
    hide Consistent, Run, Undisturbed, Heard, ToldAll, LogKinds, Alternates;
    SessionAlternates(w, hostname, steps, s, b, l, peer);
    LogIsHeard(w, steps + [s], b, l, peer);
  }

  /** Whatever is cleared in the run: the events about a peer in the log of a listener that stays
      registered alternate exactly unless the browser is cleared with the peer in view and
      finds it again. */
  lemma LogAlternatesExactly(w: World<Servus, Listener>, hostname: string, steps: seq<Step<Servus, Listener>>,
                             b: Servus, l: Listener, peer: Servus)
    requires Consistent(w) && Run(w, hostname, steps) && Registered(w, steps, b, l)
    requires b in w.nodes && peer in w.nodes && l in w.nodes[b].listeners
    ensures Alternates(peer in w.nodes[b].known, LogKinds(ToldAll(w, steps, l), b, peer)) <==>
            !FindsAgain(w, steps, b, peer)
  {
    hide Consistent, Run, Registered, Heard, ToldAll, LogKinds, Alternates, FindsAgain;
    AlternatesExactly(w, hostname, steps, b, l, peer);
    LogIsHeard(w, steps, b, l, peer);
  }

  lemma LogKindsNone(b: Servus, peer: Servus)
    ensures LogKinds([], b, peer) == []
  {}
}
