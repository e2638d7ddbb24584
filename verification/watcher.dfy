/** The file watcher (packages/kernel/src/file_watcher.cpp): which directories it watches, and
    which callbacks one readable notification fires. */
module Watcher {
  import opened Sequences
  import opened Turns

  /** A watch on file `base` in `dir`; an empty base watches every file of the directory. */
  datatype Watch = Watch(dir: string, base: string, who: nat)

  /** What inotify reports: its descriptor of a directory, and a file of it, if it names one. */
  datatype Event = Event(wd: nat, name: string)

  datatype Change = Change(dir: string, name: string)

  /** The system around: whether inotify can be started, which directory a spelling leads to, as the
      descriptor inotify has for that directory, and the order in which the container enumerates its
      entries, which may depend on anything. */
  datatype System = System(canStart: bool, wdOf: string -> nat, order: (map<nat, Watch>, nat) -> seq<nat>)

  ghost predicate Enumerating(sys: System) {
    forall entries: map<nat, Watch>, next :: Enumerates(sys.order(entries, next), entries.Keys)
  }

  /** `running` is fd_ >= 0; `wdDirs` is the spelling each armed descriptor stands for. */
  datatype State = State(entries: map<nat, Watch>, next: nat, running: bool, wdDirs: map<nat, string>)

  const EMPTY := State(map[], 0, false, map[])

  /** `arm_dir`: a directory that is armed already keeps its descriptor, and takes the new spelling. */
  function Arm(sys: System, wdDirs: map<nat, string>, dir: string): map<nat, string> {
    wdDirs[sys.wdOf(dir) := dir]
  }

  /** `rearm_all_dirs`, from nothing armed. */
  function Rearmed(sys: System, entries: map<nat, Watch>, order: seq<nat>): map<nat, string>
    requires forall t :: t in order ==> t in entries
    decreases |order|
  {
    if order == [] then map[]
    else Arm(sys, Rearmed(sys, entries, order[..|order| - 1]), entries[order[|order| - 1]].dir)
  }

  /** `remove_watch` with its re-arming and `stop_if_idle`. */
  function Remove(sys: System, s: State, token: nat): State
    requires Enumerating(sys)
  {
    if token !in s.entries then s
    else
      var entries := s.entries - {token};
      if entries == map[] then State(entries, s.next, false, map[])
      else
        State(entries, s.next, s.running,
              if s.running then Rearmed(sys, entries, sys.order(entries, s.next)) else s.wdDirs)
  }

  /** `add` and `add_dir` once the path is split. */
  function Watching(sys: System, s: State, w: Watch): State {
    if !s.running && !sys.canStart then s
    else State(s.entries[s.next + 1 := w], s.next + 1, true, Arm(sys, s.wdDirs, w.dir))
  }

  function Act(sys: System, s: State, a: Action<Watch>): State
    requires Enumerating(sys)
  {
    match a
    case Add(w) => Watching(sys, s, w)
    case Drop(token) => Remove(sys, s, token)
  }

  /** The watches as a registry of turns. */
  function Watches(sys: System): Registry<State, Watch>
    requires Enumerating(sys)
  {
    Registry((s: State) => s.entries.Keys, (s: State, a: Action<Watch>) => Act(sys, s, a))
  }

  function ActAll(sys: System, s: State, acts: seq<Action<Watch>>): State
    requires Enumerating(sys)
  {
    Do(Watches(sys), s, acts)
  }

  /** The fire loop over the snapshot. */
  function Fire(sys: System, s: State, order: seq<nat>, bodies: seq<seq<Action<Watch>>>): (State, seq<nat>)
    requires Enumerating(sys) && |order| <= |bodies|
  {
    Serve(Watches(sys), s, order, bodies)
  }

  // ---- what is armed ----

  predicate Spelled(entries: map<nat, Watch>, dir: string) {
    exists t :: t in entries && entries[t].dir == dir
  }

  /** What inotify watches is the directories of the live watches, each under the spelling of one of
      them, and it runs if there are any. */
  ghost predicate Exact(sys: System, s: State) {
    && (forall t :: t in s.entries ==> sys.wdOf(s.entries[t].dir) in s.wdDirs)
    && (forall d :: d in s.wdDirs ==> sys.wdOf(s.wdDirs[d]) == d && Spelled(s.entries, s.wdDirs[d]))
    && (s.entries != map[] ==> s.running)
    && (forall t :: t in s.entries ==> 0 < t <= s.next)
  }

  lemma {:induction false} RearmedExactly(sys: System, entries: map<nat, Watch>, order: seq<nat>)
    requires forall t :: t in order ==> t in entries
    ensures var dirs := Rearmed(sys, entries, order);
      && (forall t :: t in order ==> sys.wdOf(entries[t].dir) in dirs)
      && (forall d :: d in dirs ==> sys.wdOf(dirs[d]) == d && Spelled(entries, dirs[d]))
    decreases |order|
  {
    if order == [] {
    } else {
      RearmedExactly(sys, entries, order[..|order| - 1]);
      assert order == order[..|order| - 1] + [order[|order| - 1]];
      assert Spelled(entries, entries[order[|order| - 1]].dir);
    }
  }

  lemma ActKeepsExact(sys: System, s: State, a: Action<Watch>)
    requires Enumerating(sys) && Exact(sys, s)
    ensures Exact(sys, Act(sys, s, a))
  {
    match a
    case Add(w) =>
      if s.running || sys.canStart {
        var entries := s.entries[s.next + 1 := w];
        assert entries[s.next + 1].dir == w.dir && Spelled(entries, w.dir);
        forall d | d in s.wdDirs
          ensures Spelled(entries, s.wdDirs[d])
        {
          var t :| t in s.entries && s.entries[t].dir == s.wdDirs[d];
          assert entries[t] == s.entries[t];
        }
      }
    case Drop(token) =>
      if token in s.entries {
        var entries := s.entries - {token};
        assert Enumerates(sys.order(entries, s.next), entries.Keys);
        RearmedExactly(sys, entries, sys.order(entries, s.next));
      }
  }

  /** Over every history of adding and removing watches, inside callbacks or not. */
  lemma {:induction false} AlwaysExact(sys: System, s: State, acts: seq<Action<Watch>>)
    requires Enumerating(sys) && Exact(sys, s)
    ensures Exact(sys, ActAll(sys, s, acts))
    decreases |acts|
  {
    if acts == [] {
    } else {
      ActKeepsExact(sys, s, acts[0]);
      AlwaysExact(sys, Act(sys, s, acts[0]), acts[1..]);
    }
  }

  // ---- what is heard ----

  /** Events in the directory of watch t are reported under the spelling it knows. */
  predicate Heard(sys: System, s: State, t: nat)
    requires t in s.entries
  {
    var dir := s.entries[t].dir;
    sys.wdOf(dir) in s.wdDirs && s.wdDirs[sys.wdOf(dir)] == dir
  }

  /** Two live watches are on the same directory under different spellings. */
  predicate Clash(sys: System, s: State, t: nat, u: nat)
    requires t in s.entries && u in s.entries
  {
    sys.wdOf(s.entries[t].dir) == sys.wdOf(s.entries[u].dir) && s.entries[t].dir != s.entries[u].dir
  }

  /** Of the spellings the live watches have for a directory one is heard and no other. */
  lemma OneSpellingIsHeard(sys: System, s: State, t: nat) returns (u: nat)
    requires Exact(sys, s) && t in s.entries
    ensures u in s.entries && sys.wdOf(s.entries[u].dir) == sys.wdOf(s.entries[t].dir) && Heard(sys, s, u)
    ensures Heard(sys, s, t) <==> !Clash(sys, s, t, u)
  {
    var spelling := s.wdDirs[sys.wdOf(s.entries[t].dir)];
    u :| u in s.entries && s.entries[u].dir == spelling;
  }

  /** Over every history, every live watch is heard exactly if no two of them have the same directory
      under different spellings. */
  lemma AllAreHeardExactly(sys: System, s: State, acts: seq<Action<Watch>>)
    requires Enumerating(sys) && Exact(sys, s)
    ensures var s' := ActAll(sys, s, acts);
      (forall t :: t in s'.entries ==> Heard(sys, s', t))
      <==> (forall t, u :: t in s'.entries && u in s'.entries ==> !Clash(sys, s', t, u))
  {
    AlwaysExact(sys, s, acts);
    var s' := ActAll(sys, s, acts);
    hide ActAll;
    if t :| t in s'.entries && !Heard(sys, s', t) {
      var u := OneSpellingIsHeard(sys, s', t);
    }
  }

  const CFG_A := Watch("cfg", "a", 1)
  const CFG_B := Watch("./cfg", "b", 2)

  /** Watches on "cfg/a" and "./cfg/b", made in that order. */
  function Deafened(sys: System): State {
    State(map[1 := CFG_A, 2 := CFG_B], 2, true, map[sys.wdOf("./cfg") := "./cfg"])
  }

  lemma ActAllCons(sys: System, s: State, a: Action<Watch>, acts: seq<Action<Watch>>)
    requires Enumerating(sys)
    ensures ActAll(sys, s, [a] + acts) == ActAll(sys, Act(sys, s, a), acts) && ActAll(sys, s, []) == s
  {
    assert ([a] + acts)[1..] == acts;
    hide Act;
  }

  lemma SecondIsAdded(sys: System)
    requires Enumerating(sys) && sys.canStart && sys.wdOf("cfg") == sys.wdOf("./cfg")
    ensures Act(sys, Act(sys, EMPTY, Add(CFG_A)), Add(CFG_B)) == Deafened(sys)
  {
  }

  lemma DroppedIsHeardAgain(sys: System)
    requires Enumerating(sys) && sys.wdOf("cfg") == sys.wdOf("./cfg")
    ensures var s := Act(sys, Deafened(sys), Drop(2)); s.entries.Keys == {1} && Heard(sys, s, 1)
  {
    assert Deafened(sys).entries[2] == CFG_B && Spelled(Deafened(sys).entries, "./cfg");
    assert Deafened(sys).entries - {2} == map[1 := CFG_A];
    ActKeepsExact(sys, Deafened(sys), Drop(2));
    var u := OneSpellingIsHeard(sys, Act(sys, Deafened(sys), Drop(2)), 1);
  }

  /** Watching "cfg/a" and then "./cfg/b" makes the first deaf, until the second is dropped. */
  lemma SecondSpellingDeafens(sys: System)
    requires Enumerating(sys) && sys.canStart && sys.wdOf("cfg") == sys.wdOf("./cfg")
    ensures var s := ActAll(sys, EMPTY, [Add(CFG_A), Add(CFG_B)]);
      && s.entries.Keys == {1, 2} && !Heard(sys, s, 1) && Heard(sys, s, 2)
      && var s' := ActAll(sys, s, [Drop(2)]); s'.entries.Keys == {1} && Heard(sys, s', 1)
  {
    assert |"cfg"| != |"./cfg"|;
    assert !Heard(sys, Deafened(sys), 1) && Heard(sys, Deafened(sys), 2);
    assert Deafened(sys).entries.Keys == {1, 2};
    SecondIsAdded(sys);
    DroppedIsHeardAgain(sys);
    hide *;
    ActAllCons(sys, EMPTY, Add(CFG_A), [Add(CFG_B)]);
    ActAllCons(sys, Act(sys, EMPTY, Add(CFG_A)), Add(CFG_B), []);
    ActAllCons(sys, Deafened(sys), Drop(2), []);
    assert [Add(CFG_A)] + [Add(CFG_B)] == [Add(CFG_A), Add(CFG_B)];
    assert [Add(CFG_B)] + [] == [Add(CFG_B)];
    var drop: Action<Watch> := Drop(2);
    assert [drop] + [] == [drop];
  }

  /** Where inotify cannot be started every handle is inert: no history leaves a watch. */
  lemma {:induction false} WithoutInotifyNothing(sys: System, s: State, acts: seq<Action<Watch>>)
    requires Enumerating(sys) && !sys.canStart && s == EMPTY
    ensures ActAll(sys, s, acts) == EMPTY
    decreases |acts|
  {
    if acts == [] {
    } else {
      WithoutInotifyNothing(sys, Act(sys, s, acts[0]), acts[1..]);
    }
  }

  lemma WatchesNeverReuse(sys: System)
    requires Enumerating(sys)
    ensures NeverReuses(Watches(sys), (s: State) => s.next)
  {
    hide Rearmed, Enumerates;
  }

  // ---- one notification ----

  /** The events that count, with the directories they are reported for. */
  function Changes(wdDirs: map<nat, string>, events: seq<Event>): seq<Change> {
    if events == [] then []
    else
      (if events[0].wd in wdDirs && events[0].name != "" then [Change(wdDirs[events[0].wd], events[0].name)] else [])
      + Changes(wdDirs, events[1..])
  }

  lemma ChangesFrom(wdDirs: map<nat, string>, events: seq<Event>, i: nat)
    requires i < |events|
    ensures Changes(wdDirs, events[i..])
      == (if events[i].wd in wdDirs && events[i].name != "" then [Change(wdDirs[events[i].wd], events[i].name)] else [])
        + Changes(wdDirs, events[i + 1..])
  {
    assert events[i..][1..] == events[i + 1..];
  }

  predicate Covers(w: Watch, name: string) {
    w.base == "" || w.base == name
  }

  predicate Matches(w: Watch, changed: seq<Change>) {
    exists c :: c in changed && c.dir == w.dir && Covers(w, c.name)
  }

  /** An event names a file that the watch covers, in the directory that the watch is on. */
  predicate Concerns(sys: System, w: Watch, events: seq<Event>) {
    exists e :: e in events && e.wd == sys.wdOf(w.dir) && e.name != "" && (w.base == "" || w.base == e.name)
  }

  lemma {:induction false} ChangesAre(wdDirs: map<nat, string>, events: seq<Event>)
    ensures forall c :: c in Changes(wdDirs, events) ==>
      exists e :: e in events && e.wd in wdDirs && e.name != "" && c == Change(wdDirs[e.wd], e.name)
    ensures forall e :: e in events && e.wd in wdDirs && e.name != "" ==>
      Change(wdDirs[e.wd], e.name) in Changes(wdDirs, events)
  {
    if events == [] {
    } else {
      ChangesAre(wdDirs, events[1..]);
      forall c | c in Changes(wdDirs, events)
        ensures exists e :: e in events && e.wd in wdDirs && e.name != "" && c == Change(wdDirs[e.wd], e.name)
      {
        if c !in Changes(wdDirs, events[1..]) {
          assert events[0] in events;
        }
      }
    }
  }

  /** A watch matches what is reported exactly if it is heard and some event concerns it. */
  lemma MatchesExactly(sys: System, s: State, t: nat, events: seq<Event>)
    requires Exact(sys, s) && t in s.entries
    ensures Matches(s.entries[t], Changes(s.wdDirs, events))
      <==> Heard(sys, s, t) && Concerns(sys, s.entries[t], events)
  {
    var w, changed := s.entries[t], Changes(s.wdDirs, events);
    ChangesAre(s.wdDirs, events);
    if Matches(w, changed) {
      var c :| c in changed && c.dir == w.dir && Covers(w, c.name);
      var e :| e in events && e.wd in s.wdDirs && e.name != "" && c == Change(s.wdDirs[e.wd], e.name);
      assert e.wd == sys.wdOf(w.dir);
    }
    if Heard(sys, s, t) && Concerns(sys, w, events) {
      var e :| e in events && e.wd == sys.wdOf(w.dir) && e.name != "" && Covers(w, e.name);
      assert Change(s.wdDirs[e.wd], e.name) in changed;
    }
  }

  /** The matching watches, in the container's iteration order: the snapshot `to_fire`. */
  function ToFire(entries: map<nat, Watch>, order: seq<nat>, changed: seq<Change>): (r: seq<nat>)
    requires forall t :: t in order ==> t in entries
    ensures forall t :: t in r <==> t in order && Matches(entries[t], changed)
    ensures Distinct(order) ==> Distinct(r)
  {
    if order == [] then []
    else
      var rest := ToFire(entries, order[1..], changed);
      DistinctCons(order, rest);
      if Matches(entries[order[0]], changed) then [order[0]] + rest else rest
  }

  /** ONE NOTIFICATION, however many events it carries, calls each watch that is heard and that some
      event concerns exactly once, unless a callback that ran before dropped it; it calls no other
      watch, and none added while it runs. */
  lemma NotificationFiresMatchesOnce(sys: System, s: State, order: seq<nat>, events: seq<Event>,
                                     bodies: seq<seq<Action<Watch>>>)
    requires Enumerating(sys) && Exact(sys, s) && Enumerates(order, s.entries.Keys) && |order| <= |bodies|
    ensures var snapshot := ToFire(s.entries, order, Changes(s.wdDirs, events));
      && (forall t :: t in snapshot <==> t in s.entries && Heard(sys, s, t) && Concerns(sys, s.entries[t], events))
      && |snapshot| <= |bodies|
      && var fired := Fire(sys, s, snapshot, bodies).1;
      && Distinct(fired)
      && (forall t :: t in fired ==> t in snapshot)
      && (forall k :: 0 <= k < |snapshot| ==> (snapshot[k] in fired <==> !DroppedBefore(snapshot, bodies, fired, k)))
  {
    var changed := Changes(s.wdDirs, events);
    var snapshot := ToFire(s.entries, order, changed);
    ToFireShorter(s.entries, order, changed);
    WatchesNeverReuse(sys);
    ServesSnapshotOnce(Watches(sys), (t: State) => t.next, s, snapshot, bodies);
    forall t
      ensures t in snapshot <==> t in s.entries && Heard(sys, s, t) && Concerns(sys, s.entries[t], events)
    {
      if t in s.entries {
        MatchesExactly(sys, s, t, events);
      }
    }
  }

  lemma ToFireStep(entries: map<nat, Watch>, order: seq<nat>, changed: seq<Change>, i: nat)
    requires i < |order| && forall t :: t in order ==> t in entries
    ensures ToFire(entries, order[i..], changed)
      == (if Matches(entries[order[i]], changed) then [order[i]] else []) + ToFire(entries, order[i + 1..], changed)
  {
    assert order[i..][1..] == order[i + 1..];
    hide Matches, Distinct;
  }

  lemma {:induction false} ToFireShorter(entries: map<nat, Watch>, order: seq<nat>, changed: seq<Change>)
    requires forall t :: t in order ==> t in entries
    ensures |ToFire(entries, order, changed)| <= |order|
  {
    if order == [] {
    } else {
      ToFireShorter(entries, order[1..], changed);
    }
  }

  lemma {:induction false} ToFireNothing(entries: map<nat, Watch>, order: seq<nat>, changed: seq<Change>)
    requires forall t :: t in order ==> t in entries
    requires order == [] || changed == []
    ensures ToFire(entries, order, changed) == []
  {
    if order == [] {
    } else {
      ToFireNothing(entries, order[1..], changed);
    }
  }

  class FileWatcher {
    const sys: System
    var entries: map<nat, Watch>
    var nextToken: nat
    var running: bool
    var wdDirs: map<nat, string>

    function Abs(): State
      reads this
    {
      State(entries, nextToken, running, wdDirs)
    }

    ghost predicate Valid()
      reads this
    {
      Enumerating(sys) && Exact(sys, Abs())
    }

    constructor (sys: System)
      requires Enumerating(sys)
      ensures Valid() && Abs() == EMPTY && this.sys == sys
    {
      this.sys := sys;
      entries, nextToken, running, wdDirs := map[], 0, false, map[];
    }

    /** `add`: token 0 stands for the inert handle. A path without a file name is refused, after
        inotify was started. */
    method AddFile(dir: string, base: string, who: nat) returns (token: nat)
      requires Valid()
      modifies this
      ensures Valid()
      ensures base != "" ==> Abs() == Watching(sys, old(Abs()), Watch(if dir == "" then "." else dir, base, who))
      ensures base == "" ==> Abs() == old(Abs()).(running := old(running) || sys.canStart)
      ensures token == if base != "" && running then nextToken else 0
    {
      token := 0;
      ActKeepsExact(sys, Abs(), Action.Add(Watch(if dir == "" then "." else dir, base, who)));
      if !running {
        if !sys.canStart {
          return;
        }
        running := true;
      }
      if base == "" {
        return;
      }
      token := Register(Watch(if dir == "" then "." else dir, base, who));
    }

    method AddDir(dir: string, who: nat) returns (token: nat)
      requires Valid()
      modifies this
      ensures Valid() && Abs() == Watching(sys, old(Abs()), Watch(if dir == "" then "." else dir, "", who))
      ensures token == if running then nextToken else 0
    {
      token := 0;
      ActKeepsExact(sys, Abs(), Action.Add(Watch(if dir == "" then "." else dir, "", who)));
      if !running {
        if !sys.canStart {
          return;
        }
        running := true;
      }
      token := Register(Watch(if dir == "" then "." else dir, "", who));
    }

    method Register(w: Watch) returns (token: nat)
      requires running
      modifies this`nextToken, this`entries, this`wdDirs
      ensures Abs() == Watching(sys, old(Abs()), w) && token == nextToken
    {
      nextToken := nextToken + 1;
      token := nextToken;
      entries := entries[token := w];
      ArmDir(w.dir);
    }

    method ArmDir(dir: string)
      requires running
      modifies this`wdDirs
      ensures wdDirs == Arm(sys, old(wdDirs), dir)
    {
      var wd := sys.wdOf(dir);
      wdDirs := wdDirs[wd := dir];
    }

    method RemoveWatch(token: nat)
      requires Valid()
      modifies this
      ensures Valid() && Abs() == Remove(sys, old(Abs()), token)
    {
      ActKeepsExact(sys, Abs(), Action.Drop(token));
      if token !in entries {
        return;
      }
      entries := entries - {token};
      if running {
        wdDirs := map[];
        RearmAllDirs();
      }
      if entries == map[] {
        running := false;
        wdDirs := map[];
      }
    }

    method RearmAllDirs()
      requires Enumerating(sys) && running && wdDirs == map[]
      modifies this`wdDirs
      ensures forall t :: t in sys.order(entries, nextToken) ==> t in entries
      ensures wdDirs == Rearmed(sys, entries, sys.order(entries, nextToken))
    {
      var order := sys.order(entries, nextToken);
      assert Enumerates(order, entries.Keys);
      var i := 0;
      while i < |order|
        invariant 0 <= i <= |order|
        invariant forall t :: t in order[..i] ==> t in entries
        invariant wdDirs == Rearmed(sys, entries, order[..i])
      {
        assert order[..i + 1][..i] == order[..i];
        ArmDir(entries[order[i]].dir);
        i := i + 1;
      }
      assert order[..i] == order;
    }

    method RunActions(acts: seq<Action<Watch>>)
      requires Valid()
      modifies this
      ensures Valid() && Abs() == ActAll(sys, old(Abs()), acts)
    {
      var i := 0;
      while i < |acts|
        invariant 0 <= i <= |acts| && Valid()
        invariant ActAll(sys, Abs(), acts[i..]) == ActAll(sys, old(Abs()), acts)
      {
        ActKeepsExact(sys, Abs(), acts[i]);
        match acts[i] {
          case Add(w) =>
            if running || sys.canStart {
              running := true;
              var _ := Register(w);
            }
          case Drop(token) => RemoveWatch(token);
        }
        assert acts[i..][0] == acts[i] && acts[i..][1..] == acts[i + 1..];
        i := i + 1;
      }
    }

    method OnReadable(events: seq<Event>, order: seq<nat>, bodies: seq<seq<Action<Watch>>>) returns (fired: seq<nat>)
      requires Valid() && Enumerates(order, entries.Keys) && |order| <= |bodies|
      modifies this
      ensures Valid()
      ensures var toFire := ToFire(old(entries), order, Changes(old(wdDirs), events));
        |toFire| <= |bodies| && (Abs(), fired) == Fire(sys, old(Abs()), toFire, bodies)
    {
      ToFireShorter(entries, order, Changes(wdDirs, events));
      if !running {
        ToFireNothing(entries, order, Changes(wdDirs, events));
        return [];
      }
      var changed := Read(events);
      if changed == [] {
        ToFireNothing(entries, order, changed);
        return [];
      }
      var toFire := Snapshot(changed, order);
      fired := FireAll(toFire, bodies);
    }

    /** The read loop: what is reported of the events that are queued. */
    method Read(events: seq<Event>) returns (changed: seq<Change>)
      ensures changed == Changes(wdDirs, events)
    {
      changed := [];
      var i := 0;
      assert Changes(wdDirs, []) == [] && events[0..] == events;
      hide Changes;
      while i < |events|
        invariant 0 <= i <= |events|
        invariant changed + Changes(wdDirs, events[i..]) == Changes(wdDirs, events)
      {
        ChangesFrom(wdDirs, events, i);
        if events[i].wd in wdDirs && events[i].name != "" {
          changed := changed + [Change(wdDirs[events[i].wd], events[i].name)];
        }
        i := i + 1;
      }
      assert events[i..] == [];
    }

    method FireAll(toFire: seq<nat>, bodies: seq<seq<Action<Watch>>>) returns (fired: seq<nat>)
      requires Valid() && |toFire| <= |bodies|
      modifies this
      ensures Valid() && Abs() == Fire(sys, old(Abs()), toFire, bodies).0
      ensures fired == Fire(sys, old(Abs()), toFire, bodies).1
    {
      hide Exact;
      fired := [];
      var i := 0;
      while i < |toFire|
        invariant 0 <= i <= |toFire| && Valid()
        invariant Fire(sys, Abs(), toFire[i..], bodies[i..]).0 == Fire(sys, old(Abs()), toFire, bodies).0
        invariant fired + Fire(sys, Abs(), toFire[i..], bodies[i..]).1 == Fire(sys, old(Abs()), toFire, bodies).1
      {
        assert toFire[i..][0] == toFire[i] && toFire[i..][1..] == toFire[i + 1..];
        assert bodies[i..][0] == bodies[i] && bodies[i..][1..] == bodies[i + 1..];
        ghost var was, sofar := Abs(), fired;
        if toFire[i] in entries {
          fired := fired + [toFire[i]];
          RunActions(bodies[i]);
        }
        i := i + 1;
        assert sofar + Fire(sys, was, toFire[i - 1..], bodies[i - 1..]).1
            == fired + Fire(sys, Abs(), toFire[i..], bodies[i..]).1;
      }
    }

    method Snapshot(changed: seq<Change>, order: seq<nat>) returns (toFire: seq<nat>)
      requires forall t :: t in order ==> t in entries
      ensures toFire == ToFire(entries, order, changed)
    {
      hide ToFire, Matches, Distinct;
      toFire := [];
      assert order[0..] == order;
      var i := 0;
      while i < |order|
        invariant 0 <= i <= |order|
        invariant toFire + ToFire(entries, order[i..], changed) == ToFire(entries, order, changed)
      {
        ToFireStep(entries, order, changed, i);
        var matched := MatchesAny(entries[order[i]], changed);
        if matched {
          toFire := toFire + [order[i]];
        }
        i := i + 1;
      }
      ToFireNothing(entries, order[i..], changed);
    }

    static method MatchesAny(w: Watch, changed: seq<Change>) returns (matched: bool)
      ensures matched == Matches(w, changed)
    {
      matched := false;
      var k := 0;
      while k < |changed|
        invariant 0 <= k <= |changed|
        invariant forall j :: 0 <= j < k ==> !(changed[j].dir == w.dir && Covers(w, changed[j].name))
      {
        if w.dir == changed[k].dir && (w.base == "" || w.base == changed[k].name) {
          return true;
        }
        k := k + 1;
      }
    }
  }
}
