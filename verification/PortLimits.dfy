/** What saving without the lock can and cannot do. */
module PortLimits {
  import opened Ports
  import opened PortRuns

  // ---- nobody else is there ---------------------------------------------------------

  ghost predicate AtMostOneAlive(s: State) {
    forall p, q | p in s.procs && q in s.procs && !s.procs[p].Dead? && !s.procs[q].Dead? :: p == q
  }

  /** What a process carries, loaded without the lock, has a port of its own. */
  ghost predicate CarryFree(f: Files, pc: Pc) {
    match pc
    case Listing(job, _, _, _) => job.Expose? ==> OthersFree(View(f), job.name, job.was)
    case Saving(name, now) => OthersFree(View(f), name, now)
    case Emptied(id, now) => forall n | n in f.dir && f.dir[n] == id :: OthersFree(View(f), n, now)
    case _ => true
  }

  ghost predicate CarriesFree(s: State) { forall p | p in s.procs :: CarryFree(s.files, s.procs[p]) }

  lemma SamePortFree(root: Root, n: string, a: Whole, b: Whole)
    requires OthersFree(root, n, a) && a.sshPort == b.sshPort
    ensures OthersFree(root, n, b)
  {
    forall m | m in root && m != n ensures !Clash(root[m], b) { assert !Clash(root[m], a); }
  }

  lemma OwnCarry(e: Effect, p: Pid, l: Label)
    requires FilesOk(e.files) && UniquePorts(View(e.files)) && CarryFree(e.files, e.pc)
    ensures var f := Act(e, p, l); CarryFree(f.files, f.pc)
  {
    hide UniquePorts, OthersFree, View, AllowedIn, SshPortAllowed, FreeIn, PartOf;
    match e.pc
    case Idle =>
      if l.Begin? && (l.op.SetForwards? || l.op.Resave?) && l.op.name in View(e.files) {
        OwnPort(View(e.files), l.op.name);
      }
    case Listing(job, _, _, _) =>
      if job.Expose? { SamePortFree(View(e.files), job.name, job.was, job.was.(forwards := job.forwards)); }
    case Saving(name, now) =>
      ViewOpen(e.files, name);
      Smaller(View(e.files), name);
      if l == Go { JustOpened(e.files, name, now); }
    case _ =>
  }

  lemma JustOpened(f: Files, name: string, now: Whole)
    requires FilesOk(f) && OthersFree(View(f), name, now)
    ensures
      var g := Open(f, name);
      forall n | n in g.dir && g.dir[n] == Opened(f, name) :: n == name && OthersFree(View(g), n, now)
  {
    ViewOpen(f, name);
    Smaller(View(f), name);
    assert FilesOk(Open(f, name)) && Open(f, name).dir[name] == Opened(f, name);
  }

  lemma AloneIsClear(s: State, p: Pid, l: Label)
    requires AllOk(s) && CarriesFree(s) && AtMostOneAlive(s) && p in s.procs
    ensures StepClear(s, p, l)
  {
    if SavesUnlocked(s, p, l) {
      var id, now, r := s.procs[p].id, s.procs[p].now, Wrote(l, s.procs[p].now);
      assert CarryFree(s.files, s.procs[p]);
      forall q | q in s.procs ensures s.procs[q].Dead? || q == p {}
      forall n | n in s.files.dir && s.files.dir[n] == id ensures OthersFree(View(s.files), n, r) {
        if l.Part? { PartFree(View(s.files), n, l.record, now); }
      }
    }
  }

  lemma {:induction false} AloneIsUnique(s: State, trace: seq<(Pid, Label)>)
    requires AllOk(s) && CarriesFree(s) && AtMostOneAlive(s)
    ensures UniquePorts(View(Exec(s, trace).files))
    decreases |trace|
  {
    if trace != [] {
      var p, l := trace[0].0, trace[0].1;
      if p in s.procs {
        AloneIsClear(s, p, l);
        AloneStays(s, p, l);
      }
      hide Step, AllOk, CarriesFree, AtMostOneAlive;
      AloneIsUnique(Step(s, p, l), trace[1..]);
    }
  }

  lemma AloneStays(s: State, p: Pid, l: Label)
    requires AllOk(s) && CarriesFree(s) && AtMostOneAlive(s) && p in s.procs && StepClear(s, p, l)
    ensures var t := Step(s, p, l); AllOk(t) && CarriesFree(t) && AtMostOneAlive(t)
  {
    hide PcOk, FilesOk, UniquePorts, View, OthersFree, StepClear;
    StepKeepsOk(s, p, l);
    var e := Effect(s.files, s.lock, s.procs[p]);
    assert CarryFree(s.files, s.procs[p]);
    OwnCarry(e, p, l);
    hide Act;
    var t := Step(s, p, l);
    if s.procs[p].Dead? {
      DeadStays(e, p, l);
    } else {
      forall q | q in t.procs ensures CarryFree(t.files, t.procs[q]) && (q == p || t.procs[q].Dead?) {
        if q != p { assert s.procs[q].Dead?; }
      }
    }
  }

  lemma DeadStays(e: Effect, p: Pid, l: Label)
    requires e.pc.Dead?
    ensures Act(e, p, l) == e
  {
  }

  // ---- runs, put together step by step ------------------------------------------

  ghost predicate Reaches(s: State, t: State) { exists trace :: Exec(s, trace) == t }

  lemma {:induction false} ExecSnoc(s: State, trace: seq<(Pid, Label)>, p: Pid, l: Label)
    ensures Exec(s, trace + [(p, l)]) == Step(Exec(s, trace), p, l)
    decreases |trace|
  {
    hide Step;
    var all := trace + [(p, l)];
    if trace == [] {
      assert all[1..] == [];
    } else {
      assert all[1..] == trace[1..] + [(p, l)];
      ExecSnoc(Step(s, trace[0].0, trace[0].1), trace[1..], p, l);
    }
  }

  lemma Here(s: State)
    ensures Reaches(s, s)
  {
    assert Exec(s, []) == s;
  }

  lemma Next(s: State, t: State, p: Pid, l: Label)
    requires Reaches(s, t)
    ensures Reaches(s, Step(t, p, l))
  {
    hide Step, Exec;
    var trace :| Exec(s, trace) == t;
    ExecSnoc(s, trace, p, l);
  }

  /** Process p makes one step that leads where it is said to. */
  lemma Go1(s: State, t: State, p: Pid, l: Label, u: State)
    requires Reaches(s, t) && Step(t, p, l) == u
    ensures Reaches(s, u)
  {
    hide Step;
    Next(s, t, p, l);
  }

  /** A process with nothing to do, and the lock to be had. */
  predicate Ready(s: State, q: Pid) { q in s.procs && s.procs[q].Idle? && s.lock.Free? }

  function At(s: State, q: Pid, pc: Pc): State { s.(procs := s.procs[q := pc]) }

  /** Destroy, undisturbed. */
  lemma DestroyRun(s: State, t: State, q: Pid, name: string)
    requires Reaches(s, t) && Ready(t, q)
    ensures Reaches(s, t.(files := Unlink(t.files, name)))
  {
    hide Exec, Reaches, View;
    var op := Destroy(name);
    var u := t.(lock := Held(q));
    var w := u.(files := Unlink(t.files, name));
    Go1(s, t, q, Begin(op), At(t, q, Wait(op)));
    Go1(s, At(t, q, Wait(op)), q, Go, At(u, q, Locked(op)));
    Go1(s, At(u, q, Locked(op)), q, Go, At(w, q, Unlock));
    assert At(w, q, Idle).procs == t.procs;
    Go1(s, At(w, q, Unlock), q, Go, w.(lock := Free));
  }

  /** What both listings say when nobody interferes. */
  function HeardAll(f: Files): Listed {
    Heard(f, true, f.dir.Keys, Heard(f, false, f.dir.Keys, NOTHING))
  }

  lemma HeardAllFree(f: Files, port: int)
    requires PortFree(View(f), port)
    ensures FreeIn(HeardAll(f), port)
  {
    hide View;
  }

  /** The listings of job, undisturbed. */
  lemma ListRun(s: State, t: State, q: Pid, job: Job)
    requires q in t.procs && t.procs[q] == Listing(job, false, t.files.dir.Keys, NOTHING) && Reaches(s, t)
    ensures Reaches(s, At(t, q, Listing(job, true, {}, HeardAll(t.files))))
  {
    hide Exec, Reaches, View, Heard;
    var f, all := t.files, t.files.dir.Keys;
    var l1 := Heard(f, false, all, NOTHING);
    assert all - all == {};
    Go1(s, t, q, Read(all), At(t, q, Listing(job, false, {}, l1)));
    Go1(s, At(t, q, Listing(job, false, {}, l1)), q, Go, At(t, q, Listing(job, true, all, l1)));
    Go1(s, At(t, q, Listing(job, true, all, l1)), q, Read(all), At(t, q, Listing(job, true, {}, HeardAll(f))));
  }

  /** Clone, undisturbed, likewise, from a VM that is there. */
  lemma CloneRun(s: State, t: State, q: Pid, source: string, name: string, port: int)
    requires Reaches(s, t) && Ready(t, q) && FilesOk(t.files) && source in View(t.files) && View(t.files)[source].Good?
    requires name !in t.files.dir && PortFree(View(t.files), port)
    ensures Reaches(s, t.(files := Install(t.files, name, Good(port, []))))
  {
    hide Exec, Reaches, View, PortFree, FilesOk, Act;
    StartClone(s, t, q, source, name);
    ListAndPick(s, t, q, name, port);
    FinishRun(s, t, q, name, port);
  }

  lemma StartClone(s: State, t: State, q: Pid, source: string, name: string)
    requires Reaches(s, t) && Ready(t, q) && name !in t.files.dir
    requires source in View(t.files) && View(t.files)[source].Good?
    ensures Reaches(s, At(t.(lock := Held(q)), q, Listing(Make(name), false, t.files.dir.Keys, NOTHING)))
  {
    hide Exec, Reaches, View;
    var op, u := Clone(source, name), t.(lock := Held(q));
    ViewKeys(t.files);
    Go1(s, t, q, Begin(op), At(t, q, Wait(op)));
    Go1(s, At(t, q, Wait(op)), q, Go, At(u, q, Locked(op)));
    Go1(s, At(u, q, Locked(op)), q, Go, At(u, q, Listing(Make(name), false, t.files.dir.Keys, NOTHING)));
  }

  lemma FinishRun(s: State, t: State, q: Pid, name: string, port: int)
    requires Ready(t, q) && name !in t.files.dir
    requires Reaches(s, At(t.(lock := Held(q)), q, Planned(name, port, false)))
    ensures Reaches(s, t.(files := Install(t.files, name, Good(port, []))))
  {
    hide Exec, Reaches, View, Act;
    var u := t.(lock := Held(q));
    SaveRun(s, u, q, name, port);
    UnlockRun(s, u.(files := Install(u.files, name, Good(port, []))), q, name, port);
    var w := t.(files := Install(t.files, name, Good(port, [])));
    assert At(w, q, Idle) == w by { assert t.procs[q := Idle] == t.procs; }
  }

  /** Create, undisturbed, with a port that nobody has. */
  lemma CreateRun(s: State, t: State, q: Pid, name: string, port: int)
    requires Reaches(s, t) && Ready(t, q) && FilesOk(t.files)
    requires name !in t.files.dir && PortFree(View(t.files), port)
    ensures Reaches(s, t.(files := Install(t.files, name, Good(port, []))))
  {
    hide Exec, Reaches, View, PortFree, FilesOk, Act;
    StartCreate(s, t, q, name);
    ListAndPick(s, t, q, name, port);
    FinishRun(s, t, q, name, port);
  }

  lemma UnlockRun(s: State, w: State, q: Pid, name: string, port: int)
    requires q in w.procs && w.lock == Held(q) && Reaches(s, At(w, q, Made(name, port)))
    ensures Reaches(s, At(w.(lock := Free), q, Idle))
  {
    hide Exec, Reaches, View;
    Go1(s, At(w, q, Made(name, port)), q, Go, At(w, q, Unlock));
    Go1(s, At(w, q, Unlock), q, Go, At(w.(lock := Free), q, Idle));
  }

  lemma StartCreate(s: State, t: State, q: Pid, name: string)
    requires Reaches(s, t) && Ready(t, q) && name !in t.files.dir
    ensures Reaches(s, At(t.(lock := Held(q)), q, Listing(Make(name), false, t.files.dir.Keys, NOTHING)))
  {
    hide Exec, Reaches, View;
    var op, u := Create(name), t.(lock := Held(q));
    ViewKeys(t.files);
    Go1(s, t, q, Begin(op), At(t, q, Wait(op)));
    Go1(s, At(t, q, Wait(op)), q, Go, At(u, q, Locked(op)));
    Go1(s, At(u, q, Locked(op)), q, Go, At(u, q, Listing(Make(name), false, t.files.dir.Keys, NOTHING)));
  }

  lemma ListAndPick(s: State, t: State, q: Pid, name: string, port: int)
    requires Ready(t, q) && PortFree(View(t.files), port)
    requires Reaches(s, At(t.(lock := Held(q)), q, Listing(Make(name), false, t.files.dir.Keys, NOTHING)))
    ensures Reaches(s, At(t.(lock := Held(q)), q, Planned(name, port, false)))
  {
    hide Exec, Reaches, View, PortFree, HeardAll, FreeIn;
    var f, u, job := t.files, t.(lock := Held(q)), Make(name);
    HeardAllFree(f, port);
    ListRun(s, At(u, q, Listing(job, false, f.dir.Keys, NOTHING)), q, job);
    var heard := Listing(job, true, {}, HeardAll(f));
    assert At(At(u, q, Listing(job, false, f.dir.Keys, NOTHING)), q, heard) == At(u, q, heard);
    PickStep(At(u, q, heard), q, name, port);
    assert At(At(u, q, heard), q, Planned(name, port, false)) == At(u, q, Planned(name, port, false));
    Go1(s, At(u, q, heard), q, Pick(port), At(u, q, Planned(name, port, false)));
  }

  lemma PickStep(t: State, q: Pid, name: string, port: int)
    requires q in t.procs && t.procs[q].Listing? && t.procs[q].job == Make(name)
    requires t.procs[q].second && t.procs[q].todo == {} && FreeIn(t.procs[q].l, port)
    ensures Step(t, q, Pick(port)) == At(t, q, Planned(name, port, false))
  {
  }

  lemma SaveRun(s: State, u: State, q: Pid, name: string, port: int)
    requires q in u.procs && name !in u.files.dir && Reaches(s, At(u, q, Planned(name, port, false)))
    ensures Reaches(s, At(u.(files := Install(u.files, name, Good(port, []))), q, Made(name, port)))
  {
    hide Exec, Reaches, View;
    var f := u.files;
    var v := u.(files := Install(f, name, EMPTY));
    var w := u.(files := Install(f, name, Good(port, [])));
    Go1(s, At(u, q, Planned(name, port, false)), q, Go, At(v, q, Filling(name, f.next, port, false)));
    assert Put(Install(f, name, EMPTY), f.next, Good(port, [])) == Install(f, name, Good(port, []));
    Go1(s, At(v, q, Filling(name, f.next, port, false)), q, Go, At(w, q, Made(name, port)));
  }

  // ---- what a second process can do to a save --------------------------------------

  ghost predicate CanClash(s: State) { exists t :: Reaches(s, t) && !UniquePorts(View(t.files)) }

  lemma Clashing(s: State, t: State, m: string, n: string)
    requires Reaches(s, t) && m in View(t.files) && n in View(t.files) && m != n
    requires Clash(View(t.files)[m], View(t.files)[n])
    ensures CanClash(s)
  {
  }

  /** The save opens a file, somebody else creates a VM, and the write follows. */
  lemma WriteLast(s: State, t: State, p: Pid, id: FileId, n: string, b: string, now: Whole)
    requires Reaches(s, t) && FilesOk(t.files) && p in t.procs && t.procs[p] == Emptied(id, now)
    requires n in t.files.dir && t.files.dir[n] == id && n != b
    requires b in View(t.files) && Clash(View(t.files)[b], now)
    ensures CanClash(s)
  {
    hide Exec, Reaches, View, FilesOk;
    var u := At(t.(files := Put(t.files, id, now)), p, Idle);
    InData(t.files, n);
    ViewPut(t.files, id, now);
    Go1(s, t, p, Go, u);
    Clashing(s, u, b, n);
  }

  lemma InData(f: Files, n: string)
    requires FilesOk(f) && n in f.dir
    ensures f.dir[n] in f.data && n in View(f)
  {
  }

  /** A VM whose record is being saved, nobody having touched it, has no port between
      the opening and the writing of its file, and Create gives it away. */
  lemma HiddenPortIsGivenAway(s: State, t: State, p: Pid, q: Pid, name: string, b: string, now: Whole)
    requires Reaches(s, t) && FilesOk(t.files) && Ready(t, q) && p in t.procs && p != q
    requires t.procs[p] == Saving(name, now) && name in View(t.files) && View(t.files)[name] == now
    requires FIRST <= now.sshPort < END && OthersFree(View(t.files), name, now)
    requires b !in t.files.dir
    ensures CanClash(s)
  {
    hide Exec, Reaches, View, FilesOk, OthersFree, PortFree, Open, Opened, Install;
    var f := t.files;
    var g, id := Open(f, name), Opened(f, name);
    ViewKeys(f);
    ViewOpen(f, name);
    HidesPort(View(f), name, now);
    KnownFile(f, name);
    var u := At(t.(files := g), p, Emptied(id, now));
    Go1(s, t, p, Go, u);
    CreateRun(s, u, q, b, now.sshPort);
    var r := Good(now.sshPort, []);
    ViewInstall(g, b, r);
    InstallDir(g, b, r);
    WriteLast(s, u.(files := Install(g, b, r)), p, id, name, b, now);
  }

  lemma HidesPort(root: Root, name: string, now: Whole)
    requires FIRST <= now.sshPort < END && OthersFree(root, name, now)
    ensures PortFree(root[name := EMPTY], now.sshPort)
  {
  }

  lemma KnownFile(f: Files, name: string)
    requires name in View(f)
    ensures Opened(f, name) == f.dir[name] && Open(f, name).dir == f.dir
  {
  }

  lemma InstallDir(f: Files, name: string, r: Record)
    ensures Install(f, name, r).dir == f.dir[name := f.next]
  {
  }

  /** A VM that is destroyed while its record is about to be saved comes back with its
      port, which Create may have given away. */
  lemma DestroyedPortComesBack(s: State, t: State, p: Pid, q: Pid, name: string, b: string, now: Whole)
    requires Reaches(s, t) && FilesOk(t.files) && Ready(t, q) && p in t.procs && p != q
    requires t.procs[p] == Saving(name, now)
    requires FIRST <= now.sshPort < END && OthersFree(View(t.files), name, now)
    requires b !in t.files.dir && b != name
    ensures CanClash(s)
  {
    hide Exec, Reaches, View, FilesOk, OthersFree, PortFree, Open, Opened, Install, Unlink;
    var f := t.files;
    var g := Unlink(f, name);
    var r := Good(now.sshPort, []);
    ViewUnlink(f, name);
    GonePort(View(f), name, now);
    UnlinkDir(f, name);
    DestroyRun(s, t, q, name);
    CreateRun(s, t.(files := g), q, b, now.sshPort);
    var h := Install(g, b, r);
    ViewInstall(g, b, r);
    ViewOpen(h, name);
    var u := At(t.(files := Open(h, name)), p, Emptied(Opened(h, name), now));
    Go1(s, t.(files := h), p, Go, u);
    WriteLast(s, u, p, Opened(h, name), name, b, now);
  }

  lemma GonePort(root: Root, name: string, now: Whole)
    requires FIRST <= now.sshPort < END && OthersFree(root, name, now)
    ensures PortFree(root - {name}, now.sshPort)
  {
  }

  lemma UnlinkDir(f: Files, name: string)
    ensures Unlink(f, name).dir == f.dir - {name}
  {
  }

  /** Forward, undisturbed, up to its save. */
  lemma ForwardRun(s: State, t: State, p: Pid, name: string, forwards: seq<Forward>)
    requires Reaches(s, t) && p in t.procs && t.procs[p].Idle? && name in View(t.files) && View(t.files)[name].Good?
    requires AllowedIn(HeardAll(t.files), name, View(t.files)[name].sshPort, forwards)
    ensures Reaches(s, At(t, p, Saving(name, View(t.files)[name].(forwards := forwards))))
  {
    hide Exec, Reaches, View, HeardAll, FilesOk, AllowedIn;
    var f, was := t.files, View(t.files)[name];
    var job := Expose(name, was, forwards);
    var first, last := Listing(job, false, f.dir.Keys, NOTHING), Listing(job, true, {}, HeardAll(f));
    var now := was.(forwards := forwards);
    Go1(s, t, p, Begin(SetForwards(name, forwards)), At(t, p, first));
    ListRun(s, At(t, p, first), p, job);
    assert At(At(t, p, first), p, last) == At(t, p, last);
    assert At(At(t, p, last), p, Saving(name, now)) == At(t, p, Saving(name, now));
    Go1(s, At(t, p, last), p, Go, At(t, p, Saving(name, now)));
  }

  /** Forward, undisturbed, stores the forwards and changes nothing else. */
  lemma ForwardDone(s: State, t: State, p: Pid, name: string, forwards: seq<Forward>) returns (f: Files)
    requires Reaches(s, t) && FilesOk(t.files) && p in t.procs && t.procs[p].Idle?
    requires name in View(t.files) && View(t.files)[name].Good?
    requires AllowedIn(HeardAll(t.files), name, View(t.files)[name].sshPort, forwards)
    ensures Reaches(s, t.(files := f))
    ensures View(f) == View(t.files)[name := View(t.files)[name].(forwards := forwards)]
  {
    hide Exec, Reaches, View, FilesOk, AllowedIn, HeardAll, Open, Opened, Put;
    var now: Whole := View(t.files)[name].(forwards := forwards);
    ForwardRun(s, t, p, name, forwards);
    var g, id := Open(t.files, name), Opened(t.files, name);
    ViewOpen(t.files, name);
    f := Put(g, id, now);
    ViewPut(g, id, now);
    assert name in g.dir && g.dir[name] == id;
    assert View(t.files)[name := EMPTY][name := now] == View(t.files)[name := now];
    assert At(At(t, p, Saving(name, now)).(files := g), p, Emptied(id, now)) == At(t.(files := g), p, Emptied(id, now));
    Go1(s, At(t, p, Saving(name, now)), p, Go, At(t.(files := g), p, Emptied(id, now)));
    assert At(t.(files := f), p, Idle) == t.(files := f) by { assert t.procs[p := Idle] == t.procs; }
    assert At(At(t.(files := f), p, Emptied(id, now)), p, Idle) == At(t.(files := f), p, Idle);
    Go1(s, At(t.(files := g), p, Emptied(id, now)), p, Go, t.(files := f));
  }

  /** Update, undisturbed, gives the VM the port and changes nothing else. */
  lemma UpdateRun(s: State, t: State, q: Pid, name: string, port: int) returns (f: Files)
    requires Reaches(s, t) && FilesOk(t.files) && Ready(t, q) && name in View(t.files) && View(t.files)[name].Good?
    requires port != View(t.files)[name].sshPort
    requires SshPortAllowed(HeardAll(t.files), name, View(t.files)[name], port)
    ensures Reaches(s, t.(files := f))
    ensures View(f) == View(t.files)[name := Good(port, View(t.files)[name].forwards)]
  {
    hide Exec, Reaches, View, FilesOk, SshPortAllowed, HeardAll;
    var was: Whole := View(t.files)[name];
    var now := Good(port, was.forwards);
    UpdateChecks(s, t, q, name, was, port);
    f := SwapRun(s, t, q, name, now);
  }

  lemma UpdateChecks(s: State, t: State, q: Pid, name: string, was: Whole, port: int)
    requires Reaches(s, t) && Ready(t, q) && name in View(t.files) && View(t.files)[name] == was && port != was.sshPort
    requires SshPortAllowed(HeardAll(t.files), name, was, port)
    ensures Reaches(s, At(t.(lock := Held(q)), q, Checked(name, Good(port, was.forwards))))
  {
    hide Exec, Reaches, View, SshPortAllowed, HeardAll, Commit, PartOf, AllowedIn, FreeIn, Heard;
    var op, u, job := Update(name, Port(port)), t.(lock := Held(q)), Move(name, was, port);
    var first := Listing(job, false, t.files.dir.Keys, NOTHING);
    var last := Listing(job, true, {}, HeardAll(t.files));
    var checked := Checked(name, Good(port, was.forwards));
    Go1(s, t, q, Begin(op), At(t, q, Wait(op)));
    Go1(s, At(t, q, Wait(op)), q, Go, At(u, q, Locked(op)));
    Go1(s, At(u, q, Locked(op)), q, Go, At(u, q, first));
    ListRun(s, At(u, q, first), q, job);
    assert At(At(u, q, first), q, last) == At(u, q, last);
    assert At(At(u, q, last), q, checked) == At(u, q, checked);
    Go1(s, At(u, q, last), q, Go, At(u, q, checked));
  }

  lemma SwapRun(s: State, t: State, q: Pid, name: string, now: Whole) returns (f: Files)
    requires FilesOk(t.files) && Ready(t, q) && name in View(t.files)
    requires Reaches(s, At(t.(lock := Held(q)), q, Checked(name, now)))
    ensures Reaches(s, t.(files := f))
    ensures View(f) == View(t.files)[name := now]
  {
    hide Exec, Reaches, View, FilesOk, Act;
    ViewKeys(t.files);
    var u, g, saved := t.(lock := Held(q)), Unlink(t.files, name), t.files.dir[name];
    f := Install(g, name, now);
    ViewUnlink(t.files, name);
    ViewInstall(g, name, now);
    assert (View(t.files) - {name})[name := now] == View(t.files)[name := now];
    SwapSteps(s, u, q, name, now);
    assert At(t.(files := f), q, Idle) == t.(files := f) by { assert t.procs[q := Idle] == t.procs; }
    assert u.(files := f).(lock := Free) == t.(files := f);
  }

  lemma SwapSteps(s: State, u: State, q: Pid, name: string, now: Whole)
    requires q in u.procs && u.lock == Held(q) && name in u.files.dir
    requires Reaches(s, At(u, q, Checked(name, now)))
    ensures Reaches(s, At(u.(files := Install(Unlink(u.files, name), name, now)).(lock := Free), q, Idle))
  {
    hide Exec, Reaches, View, Start, List, Begun, PartOf;
    var g, saved := Unlink(u.files, name), u.files.dir[name];
    var f := Install(g, name, now);
    Go1(s, At(u, q, Checked(name, now)), q, Go, At(u.(files := g), q, Swapping(name, saved, now)));
    Go1(s, At(u.(files := g), q, Swapping(name, saved, now)), q, Go, At(u.(files := f), q, Installed(name, saved)));
    Go1(s, At(u.(files := f), q, Installed(name, saved)), q, Go, At(u.(files := f), q, Unlock));
    Go1(s, At(u.(files := f), q, Unlock), q, Go, At(u.(files := f).(lock := Free), q, Idle));
  }

  // ---- with a second process there is always a way ---------------------------------

  function FailsLeft(pc: Pc): nat {
    match pc
    case Idle | Dead => 0
    case Wait(_) | Saving(_, _) | Emptied(_, _) | Unlock => 1
    case Listing(job, _, _, _) => if job.Expose? then 1 else 2
    case Swapping(_, _, _) | Installed(_, _) => 3
    case _ => 2
  }

  /** Failing a few times brings any process home. */
  lemma {:induction false} Home(s: State, t: State, p: Pid) returns (u: State)
    requires Reaches(s, t) && AllOk(t) && p in t.procs && !t.procs[p].Dead?
    ensures Reaches(s, u) && AllOk(u) && u.procs == t.procs[p := Idle]
    ensures u.lock == if t.lock == Held(p) then Free else t.lock
    decreases FailsLeft(t.procs[p])
  {
    hide Exec, Reaches, FilesOk, UniquePorts, View;
    assert PcOk(t.files, t.lock, p, t.procs[p]);
    if t.procs[p].Idle? {
      assert t.procs[p := Idle] == t.procs;
      u := t;
    } else {
      FailStep(t, p);
      StepKeepsOk(t, p, Fail);
      Next(s, t, p, Fail);
      u := Home(s, Step(t, p, Fail), p);
    }
  }

  lemma FailStep(t: State, p: Pid)
    requires p in t.procs && !t.procs[p].Idle? && !t.procs[p].Dead? && (Critical(t.procs[p]) <==> t.lock == Held(p))
    ensures
      var u := Step(t, p, Fail);
      && StepClear(t, p, Fail) && u.procs == t.procs[p := u.procs[p]] && !u.procs[p].Dead?
      && FailsLeft(u.procs[p]) < FailsLeft(t.procs[p])
      && (u.lock == t.lock || (t.lock == Held(p) && u.lock == Free && u.procs[p].Idle?))
  {
  }

  lemma MakeRoom(s: State, t: State, q: Pid, n: string)
    requires Reaches(s, t) && Ready(t, q) && FilesOk(t.files) && UniquePorts(View(t.files))
    ensures
      var u := t.(files := Unlink(t.files, n));
      && Reaches(s, u) && Ready(u, q) && FilesOk(u.files) && UniquePorts(View(u.files))
      && View(u.files) == View(t.files) - {n} && u.files.dir == t.files.dir - {n}
  {
    DestroyRun(s, t, q, n);
    ViewUnlink(t.files, n);
    Smaller(View(t.files), n);
  }

  /** Two processes with nothing to do: one makes two VMs, the other saves the first
      while the second is made. */
  lemma FromScratch(s: State, t: State, p: Pid, q: Pid)
    requires Reaches(s, t) && FilesOk(t.files) && UniquePorts(View(t.files))
    requires Ready(t, p) && Ready(t, q) && p != q
    ensures CanClash(s)
  {
    hide Exec, Reaches, View, FilesOk, UniquePorts, OthersFree, PortFree, Install, Unlink;
    var holder := Holder2200(View(t.files));
    MakeRoom(s, t, q, holder);
    var t1 := t.(files := Unlink(t.files, holder));
    MakeRoom(s, t1, q, "a");
    var t2 := t1.(files := Unlink(t1.files, "a"));
    MakeRoom(s, t2, q, "b");
    var t3 := t2.(files := Unlink(t2.files, "b"));
    StillFree(View(t1.files), "a");
    StillFree(View(t2.files), "b");
    var r := Good(2200, []);
    CreateRun(s, t3, q, "a", 2200);
    ViewInstall(t3.files, "a", r);
    InstallDir(t3.files, "a", r);
    OwnPortFree(View(t3.files), "a", r);
    var t4 := t3.(files := Install(t3.files, "a", r));
    ForwardRun(s, t4, p, "a", []);
    HiddenPortIsGivenAway(s, At(t4, p, Saving("a", r)), p, q, "a", "b", r);
  }

  /** The VM that has the first port, if any. */
  lemma Holder2200(root: Root) returns (n: string)
    requires UniquePorts(root)
    ensures PortFree(root - {n}, 2200)
  {
    if m :| m in root && HoldsPort(root[m], 2200) {
      n := m;
      forall k | k in root - {n} ensures !HoldsPort((root - {n})[k], 2200) { assert !Clash(root[m], root[k]); }
    } else {
      n := "";
    }
  }

  lemma StillFree(root: Root, n: string)
    requires PortFree(root, 2200)
    ensures PortFree(root - {n}, 2200)
  {
  }

  lemma OwnPortFree(root: Root, n: string, r: Whole)
    requires PortFree(root, r.sshPort)
    ensures OthersFree(root[n := r], n, r)
  {
  }

  lemma TwoCanClash(s: State, p: Pid, q: Pid)
    requires AllOk(s) && p in s.procs && q in s.procs && p != q && !s.procs[p].Dead? && !s.procs[q].Dead?
    requires s.lock.Held? ==> s.lock.pid == p || s.lock.pid == q
    ensures CanClash(s)
  {
    hide Exec, Reaches, View, FilesOk, UniquePorts, PcOk, CanClash;
    Here(s);
    var t := Home(s, s, p);
    var u := Home(s, t, q);
    FromScratch(s, u, p, q);
  }

  /** From any state, a save under way or not, in which no carried record clashes:
      every run keeps ports unique exactly when there is at most one process. */
  lemma SaveExact(s: State)
    requires AllOk(s) && CarriesFree(s)
    ensures (forall trace :: UniquePorts(View(Exec(s, trace).files))) <==> AtMostOneAlive(s)
  {
    hide Exec, View, FilesOk, UniquePorts, CarriesFree;
    if AtMostOneAlive(s) {
      forall trace ensures UniquePorts(View(Exec(s, trace).files)) { AloneIsUnique(s, trace); }
    } else {
      var p, q :| p in s.procs && q in s.procs && !s.procs[p].Dead? && !s.procs[q].Dead? && p != q;
      if s.lock.Held? {
        var h := s.lock.pid;
        assert PcOk(s.files, s.lock, h, s.procs[h]);
        TwoCanClash(s, h, if h == p then q else p);
      } else {
        TwoCanClash(s, p, q);
      }
      var t :| Reaches(s, t) && !UniquePorts(View(t.files));
      var trace :| Exec(s, trace) == t;
      assert !UniquePorts(View(Exec(s, trace).files));
    }
  }

  // ---- a write that is clear, and one that is not ------------------------------------

  /** A save onto a record that has the port it was loaded with is clear, if the write
      follows the opening at once. */
  lemma InPlaceAtOnce(s: State, p: Pid)
    requires AllOk(s) && p in s.procs && s.procs[p].Saving?
    requires
      var name, now := s.procs[p].name, s.procs[p].now;
      name in View(s.files) && View(s.files)[name].Good? && View(s.files)[name].sshPort == now.sshPort
    ensures Clear(Step(s, p, Go), Opened(s.files, s.procs[p].name), s.procs[p].now)
  {
    hide Open, FilesOk, UniquePorts, OthersFree, View;
    var f, name, now := s.files, s.procs[p].name, s.procs[p].now;
    var root, id, t := View(f), Opened(f, name), Step(s, p, Go);
    ViewKeys(f);
    KnownFile(f, name);
    ViewOpen(f, name);
    Smaller(root, name);
    OwnPort(root, name);
    SamePortFree(root, name, root[name], now);
    JustOpened(f, name, now);
    forall q | q in t.procs ensures NotInTheWay(t.files, t.procs[q], name, now) {
      if q != p { InPlaceNotInTheWay(s, q, name, now); }
    }
    forall q, n | q in t.procs ensures !PutBack(t.procs[q], n, id) { NotPutBack(s, p, q, n, id); }
  }

  lemma NotPutBack(s: State, p: Pid, q: Pid, n: string, id: FileId)
    requires AllOk(s) && p in s.procs && s.procs[p].Saving? && q in s.procs
    requires s.procs[p].name in s.files.dir && id == s.files.dir[s.procs[p].name]
    ensures !PutBack(Step(s, p, Go).procs[q], n, id)
  {
    hide View, UniquePorts, Open;
    assert PcOk(s.files, s.lock, q, s.procs[q]);
  }

  lemma InPlaceNotInTheWay(s: State, q: Pid, name: string, now: Whole)
    requires AllOk(s) && q in s.procs && name in View(s.files)
    requires View(s.files)[name].Good? && View(s.files)[name].sshPort == now.sshPort
    ensures NotInTheWay(Open(s.files, name), s.procs[q], name, now)
  {
    hide FilesOk, UniquePorts;
    var f, pc, root := s.files, s.procs[q], View(s.files);
    assert PcOk(f, s.lock, q, pc);
    OpenHandles(f, name, pc);
    forall m, x | MayWrite(Open(f, name), pc, m, x) && m != name ensures !Clash(x, now) {
      assert MayWrite(f, pc, m, x) && !Clash(root[name], x);
    }
  }

  /** No run from here, its unlocked writes being clear, ends with a shared port. */
  ghost predicate SafeFrom(s: State) {
    forall rest | WritesClear(s, rest) :: UniquePorts(View(Exec(s, rest).files))
  }

  /** Process q makes the calls, none of them an unlocked write. */
  ghost predicate GoesTo(s: State, q: Pid, labels: seq<Label>, t: State)
    decreases |labels|
  {
    if labels == [] then s == t
    else !SavesUnlocked(s, q, labels[0]) && GoesTo(Step(s, q, labels[0]), q, labels[1..], t)
  }

  lemma {:induction false} NotSafe(s: State, q: Pid, labels: seq<Label>, t: State) returns (rest: seq<(Pid, Label)>)
    requires GoesTo(s, q, labels, t)
    ensures WritesClear(s, rest) && Exec(s, rest) == t
    decreases |labels|
  {
    hide Step, SavesUnlocked, Clear;
    if labels == [] {
      rest := [];
    } else {
      var after := NotSafe(Step(s, q, labels[0]), q, labels[1..], t);
      rest := [(q, labels[0])] + after;
      assert rest[1..] == after;
      assert StepClear(s, q, labels[0]);
    }
  }

  lemma Unsafe(s: State, q: Pid, labels: seq<Label>, t: State, m: string, n: string)
    requires GoesTo(s, q, labels, t)
    requires m in View(t.files) && n in View(t.files) && m != n && Clash(View(t.files)[m], View(t.files)[n])
    ensures !SafeFrom(s)
  {
    hide Exec, WritesClear, GoesTo, View;
    var rest := NotSafe(s, q, labels, t);
    assert !UniquePorts(View(t.files));
  }

  lemma GoesOne(s: State, q: Pid, l: Label)
    requires !SavesUnlocked(s, q, l)
    ensures GoesTo(s, q, [l], Step(s, q, l))
  {
    hide Step;
    assert [l][1..] == [];
  }

  lemma GoesTwo(s: State, q: Pid, l: Label, l': Label)
    requires !SavesUnlocked(s, q, l) && !SavesUnlocked(Step(s, q, l), q, l')
    ensures GoesTo(s, q, [l, l'], Step(Step(s, q, l), q, l'))
  {
    hide Step, SavesUnlocked;
    assert [l, l'][1..] == [l'];
    GoesOne(Step(s, q, l), q, l');
  }

  /** A process that may yet write x to m writes it. */
  lemma GoesOn(t: State, q: Pid, m: string, x: Record) returns (labels: seq<Label>, u: State)
    requires FilesOk(t.files) && q in t.procs && HandlesOk(t.files, t.procs[q]) && MayWrite(t.files, t.procs[q], m, x)
    ensures GoesTo(t, q, labels, u)
    ensures m in View(u.files) && View(u.files)[m] == x
    ensures forall n | n in View(t.files) && n != m :: n in View(u.files) && View(u.files)[n] == View(t.files)[n]
  {
    hide GoesTo, FilesOk, Open, View;
    var f, pc := t.files, t.procs[q];
    match pc
    case Planned(_, _, _) => labels, u := OpensAndFills(t, q, m, x);
    case Filling(_, id, _, _) => labels, u := Fills(t, q, m, x);
    case Made(_, port) =>
      var t1 := Step(t, q, Again);
      var rest, u1 := OpensAndFills(t1, q, m, x);
      labels, u := [Again] + rest, u1;
      assert labels[1..] == rest;
      assert GoesTo(t, q, labels, u) by { GoesFirst(t, q, Again, rest, u); }
    case Checked(_, _) => labels, u := SwapsIn(t, q, m, x);
    case Swapping(_, saved, now) =>
      if x == now {
        labels, u := [Go], Step(t, q, Go);
        GoesOne(t, q, Go);
        ViewInstall(f, m, x);
      } else {
        labels, u := Restores(t, q, m, x);
      }
    case Installed(_, saved) => labels, u := Restores(t, q, m, x);
    case Restoring(_, saved) =>
      labels, u := [Go], Step(t, q, Go);
      GoesOne(t, q, Go);
      ViewLink(f, m, saved);
  }

  lemma GoesFirst(t: State, q: Pid, l: Label, rest: seq<Label>, u: State)
    requires !SavesUnlocked(t, q, l) && GoesTo(Step(t, q, l), q, rest, u)
    ensures GoesTo(t, q, [l] + rest, u)
  {
    assert ([l] + rest)[1..] == rest;
  }

  lemma Fills(t: State, q: Pid, m: string, x: Record) returns (labels: seq<Label>, u: State)
    requires FilesOk(t.files) && q in t.procs && HandlesOk(t.files, t.procs[q])
    requires t.procs[q].Filling? && MayWrite(t.files, t.procs[q], m, x)
    ensures GoesTo(t, q, labels, u) && u.files == Put(t.files, t.procs[q].id, x)
    ensures View(u.files) == View(t.files)[m := x]
  {
    hide GoesTo, FilesOk, View;
    labels, u := [Go], Step(t, q, Go);
    GoesOne(t, q, Go);
    ViewPut(t.files, t.procs[q].id, x);
  }

  lemma OpensAndFills(t: State, q: Pid, m: string, x: Record) returns (labels: seq<Label>, u: State)
    requires FilesOk(t.files) && q in t.procs && t.procs[q].Planned? && MayWrite(t.files, t.procs[q], m, x)
    ensures GoesTo(t, q, labels, u)
    ensures View(u.files) == View(t.files)[m := x]
  {
    hide GoesTo, FilesOk, View, Open, Opened;
    ViewOpen(t.files, m);
    var t1 := Step(t, q, Go);
    var rest, u1 := Fills(t1, q, m, x);
    GoesFirst(t, q, Go, rest, u1);
    labels, u := [Go] + rest, u1;
  }

  lemma SwapsIn(t: State, q: Pid, m: string, x: Record) returns (labels: seq<Label>, u: State)
    requires FilesOk(t.files) && q in t.procs && t.procs[q].Checked? && m in t.files.dir
    requires MayWrite(t.files, t.procs[q], m, x)
    ensures GoesTo(t, q, labels, u)
    ensures View(u.files) == (View(t.files) - {m})[m := x]
  {
    hide GoesTo, FilesOk, View;
    labels, u := [Go, Go], Step(Step(t, q, Go), q, Go);
    GoesTwo(t, q, Go, Go);
    ViewUnlink(t.files, m);
    ViewInstall(Unlink(t.files, m), m, x);
  }

  lemma Restores(t: State, q: Pid, m: string, x: Record) returns (labels: seq<Label>, u: State)
    requires FilesOk(t.files) && q in t.procs && HandlesOk(t.files, t.procs[q])
    requires t.procs[q].Swapping? || t.procs[q].Installed?
    requires m == t.procs[q].name && t.procs[q].saved in t.files.data && x == t.files.data[t.procs[q].saved]
    ensures GoesTo(t, q, labels, u)
    ensures View(u.files) == (View(t.files) - {m})[m := x] || View(u.files) == View(t.files)[m := x]
  {
    hide GoesTo, FilesOk, View;
    var f, saved := t.files, t.procs[q].saved;
    labels, u := [Fail, Go], Step(Step(t, q, Fail), q, Go);
    GoesTwo(t, q, Fail, Go);
    ViewUnlink(f, m);
    if t.procs[q].Swapping? { ViewLink(f, m, saved); } else { ViewLink(Unlink(f, m), m, saved); }
  }

  /** Reading on, a listing does not hear of a port that only n has. */
  lemma StaysQuiet(f: Files, pc: Pc, names: set<string>, n: string, now: Whole)
    requires pc.Listing? && OthersFree(View(f), n, now) && now.sshPort != 0
    requires n in View(f) && View(f)[n] == now && (pc.second || n !in names)
    requires !RuledOut(pc.job, pc.l, now.sshPort)
    ensures !RuledOut(pc.job, Heard(f, pc.second, names, pc.l), now.sshPort)
  {
    hide View;
    assert forall m | m in View(f) && m != n :: !Clash(View(f)[m], now) && !HoldsPort(View(f)[m], now.sshPort);
  }

  /** A listing for Create that has passed n by goes on and takes n's port. */
  lemma Takes(t: State, q: Pid, n: string, now: Whole) returns (labels: seq<Label>, u: State)
    requires FilesOk(t.files) && q in t.procs && t.procs[q].Listing? && t.procs[q].job.Make?
    requires n in View(t.files) && View(t.files)[n] == now && OthersFree(View(t.files), n, now)
    requires n != t.procs[q].job.name && !WillHear(t.procs[q], n, now)
    ensures GoesTo(t, q, labels, u)
    ensures View(u.files) == View(t.files)[t.procs[q].job.name := Good(now.sshPort, [])]
    decreases !t.procs[q].second
  {
    hide GoesTo, FilesOk, View, OthersFree, RuledOut, Heard;
    var f, pc := t.files, t.procs[q];
    var heard := Heard(f, pc.second, pc.todo, pc.l);
    StaysQuiet(f, pc, pc.todo, n, now);
    assert pc.todo - pc.todo == {};
    var done := pc.(todo := {}, l := heard);
    var t1 := At(t, q, done);
    assert Step(t, q, Read(pc.todo)) == t1;
    if pc.second {
      NotHeld(done, now.sshPort);
      var t2 := At(t1, q, Planned(pc.job.name, now.sshPort, false));
      assert Step(t1, q, Pick(now.sshPort)) == t2;
      var rest, v := OpensAndFills(t2, q, pc.job.name, Good(now.sshPort, []));
      GoesFirst(t1, q, Pick(now.sshPort), rest, v);
      GoesFirst(t, q, Read(pc.todo), [Pick(now.sshPort)] + rest, v);
      labels, u := [Read(pc.todo)] + ([Pick(now.sshPort)] + rest), v;
    } else {
      var t2 := At(t1, q, done.(second := true, todo := f.dir.Keys));
      assert Step(t1, q, Go) == t2;
      var rest, v := Takes(t2, q, n, now);
      GoesFirst(t1, q, Go, rest, v);
      GoesFirst(t, q, Read(pc.todo), [Go] + rest, v);
      labels, u := [Read(pc.todo)] + ([Go] + rest), v;
    }
  }

  /** What makes a write unclear. */
  lemma Unclear(s: State, id: FileId, r: Record) returns (q: Pid, n: string)
    requires !Clear(s, id, r)
    ensures
      || (n in s.files.dir && s.files.dir[n] == id && !OthersFree(View(s.files), n, r))
      || (n in s.files.dir && s.files.dir[n] == id && q in s.procs && !NotInTheWay(s.files, s.procs[q], n, r))
      || (q in s.procs && PutBack(s.procs[q], n, id) && !OthersFree(View(s.files), n, r))
  {
    hide View, OthersFree, NotInTheWay, PutBack;
    if m :| m in s.files.dir && s.files.dir[m] == id && !OthersFree(View(s.files), m, r) {
      q, n := 0, m;
    } else if m, k :| m in s.files.dir && s.files.dir[m] == id && k in s.procs
                      && !NotInTheWay(s.files, s.procs[k], m, r) {
      q, n := k, m;
    } else {
      var k, m :| k in s.procs && PutBack(s.procs[k], m, id) && !OthersFree(View(s.files), m, r);
      q, n := k, m;
    }
  }

  predicate UpdateListing(s: State) { exists q | q in s.procs :: s.procs[q].Listing? && s.procs[q].job.Move? }

  /** An unlocked write leaves every run safe whose later writes are clear, exactly when
      it is clear itself. (While an Update is listing, clear is sufficient: whether
      that Update would go through also depends on its VM's forwards.) */
  lemma ClearExact(s: State, p: Pid)
    requires AllOk(s) && p in s.procs && s.procs[p].Emptied? && !UpdateListing(s)
    ensures Clear(s, s.procs[p].id, s.procs[p].now) <==> SafeFrom(Step(s, p, Go))
  {
    hide AllOk, Clear, Act, View, UniquePorts;
    var id, now := s.procs[p].id, s.procs[p].now;
    if Clear(s, id, now) {
      ClearIsSafe(s, p);
    } else {
      var q, n := Unclear(s, id, now);
      if n in s.files.dir && s.files.dir[n] == id && !OthersFree(View(s.files), n, now) {
        AtOnce(s, p, n);
      } else if n in s.files.dir && s.files.dir[n] == id {
        InTheWay(s, p, q, n);
      } else {
        ComesBack(s, p, q, n);
      }
    }
  }

  lemma ClearIsSafe(s: State, p: Pid)
    requires AllOk(s) && p in s.procs && s.procs[p].Emptied? && Clear(s, s.procs[p].id, s.procs[p].now)
    ensures SafeFrom(Step(s, p, Go))
  {
    hide AllOk, Clear, Act, View, UniquePorts, Step;
    StepKeepsOk(s, p, Go);
    var t := Step(s, p, Go);
    forall rest | WritesClear(t, rest) ensures UniquePorts(View(Exec(t, rest).files)) {
      PortsStayUnique(t, rest);
      StillUnique(Exec(t, rest));
    }
  }

  lemma StillUnique(s: State)
    requires AllOk(s)
    ensures UniquePorts(View(s.files))
  {
  }

  lemma Wrote1(s: State, p: Pid)
    requires AllOk(s) && p in s.procs && s.procs[p].Emptied?
    ensures
      var id, now, t := s.procs[p].id, s.procs[p].now, Step(s, p, Go);
      && id in s.files.data && t == At(s, p, Idle).(files := Put(s.files, id, now)) && FilesOk(t.files)
  {
    hide View, UniquePorts;
    assert PcOk(s.files, s.lock, p, s.procs[p]);
    ViewPut(s.files, s.procs[p].id, s.procs[p].now);
  }

  lemma AtOnce(s: State, p: Pid, n: string)
    requires AllOk(s) && p in s.procs && s.procs[p].Emptied?
    requires n in s.files.dir && s.files.dir[n] == s.procs[p].id && !OthersFree(View(s.files), n, s.procs[p].now)
    ensures !SafeFrom(Step(s, p, Go))
  {
    hide View, UniquePorts, Act, FilesOk;
    var id, now, t := s.procs[p].id, s.procs[p].now, Step(s, p, Go);
    Wrote1(s, p);
    FilesAreOk(s);
    ViewPut(s.files, id, now);
    var m :| m in View(s.files) && m != n && Clash(View(s.files)[m], now);
    Unsafe(t, p, [], t, m, n);
  }

  lemma FilesAreOk(s: State)
    requires AllOk(s)
    ensures FilesOk(s.files)
  {
  }

  lemma InTheWay(s: State, p: Pid, q: Pid, n: string)
    requires AllOk(s) && p in s.procs && s.procs[p].Emptied? && q in s.procs && !UpdateListing(s)
    requires n in s.files.dir && s.files.dir[n] == s.procs[p].id && OthersFree(View(s.files), n, s.procs[p].now)
    requires !NotInTheWay(s.files, s.procs[q], n, s.procs[p].now)
    ensures !SafeFrom(Step(s, p, Go))
  {
    hide View, UniquePorts, Act, FilesOk, SafeFrom, OthersFree, WillHear;
    var f, pc, id, now, t := s.files, s.procs[q], s.procs[p].id, s.procs[p].now, Step(s, p, Go);
    Wrote1(s, p);
    FilesAreOk(s);
    ViewPut(f, id, now);
    HandlesAfter(s, p, q);
    if m, x :| MayWrite(f, pc, m, x) && m != n && Clash(x, now) {
      SameAside(s, p, q, n, m, x);
      var labels, u := GoesOn(t, q, m, x);
      Unsafe(t, q, labels, u, m, n);
    } else {
      OwnRecord(View(f), n, now);
      var labels, u := Takes(t, q, n, now);
      HasPort(pc, n, now);
      Unsafe(t, q, labels, u, pc.job.name, n);
    }
  }

  lemma HasPort(pc: Pc, n: string, now: Whole)
    requires pc.Listing? && !WillHear(pc, n, now)
    ensures Clash(Good(now.sshPort, []), now)
  {
  }

  /** The write changes nothing for who has the lock, if the file is in its place. */
  lemma HandlesAfter(s: State, p: Pid, q: Pid)
    requires AllOk(s) && p in s.procs && s.procs[p].Emptied? && q in s.procs && q != p
    ensures Step(s, p, Go).procs[q] == s.procs[q] && HandlesOk(Step(s, p, Go).files, s.procs[q])
  {
    hide View, UniquePorts, FilesOk;
    Wrote1(s, p);
    assert PcOk(s.files, s.lock, q, s.procs[q]);
  }

  lemma SameAside(s: State, p: Pid, q: Pid, n: string, m: string, x: Record)
    requires AllOk(s) && p in s.procs && s.procs[p].Emptied? && q in s.procs && q != p
    requires n in s.files.dir && s.files.dir[n] == s.procs[p].id && MayWrite(s.files, s.procs[q], m, x)
    ensures MayWrite(Step(s, p, Go).files, s.procs[q], m, x)
  {
    hide View, UniquePorts, FilesOk;
    Wrote1(s, p);
    assert PcOk(s.files, s.lock, q, s.procs[q]);
  }

  lemma ComesBack(s: State, p: Pid, q: Pid, n: string)
    requires AllOk(s) && p in s.procs && s.procs[p].Emptied? && q in s.procs
    requires PutBack(s.procs[q], n, s.procs[p].id) && !OthersFree(View(s.files), n, s.procs[p].now)
    ensures !SafeFrom(Step(s, p, Go))
  {
    hide View, UniquePorts, Act, FilesOk, SafeFrom;
    var id, now, t := s.procs[p].id, s.procs[p].now, Step(s, p, Go);
    Wrote1(s, p);
    FilesAreOk(s);
    HandlesAfter(s, p, q);
    NotLinked(s, q, n, id);
    ViewPut(s.files, id, now);
    var labels, u := GoesOn(t, q, n, now);
    var m :| m in View(s.files) && m != n && Clash(View(s.files)[m], now);
    Unsafe(t, q, labels, u, m, n);
  }

  lemma NotLinked(s: State, q: Pid, n: string, id: FileId)
    requires AllOk(s) && q in s.procs && PutBack(s.procs[q], n, id)
    ensures Aside(s.files, id)
  {
    assert PcOk(s.files, s.lock, q, s.procs[q]);
  }
}
