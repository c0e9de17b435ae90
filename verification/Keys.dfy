/** Double-checked key generation across processes: internal/keys/keys.go under
    the key lock of internal/config/lock.go. Each label below is one system call
    of `generate` or of the ssh-keygen it starts; processes interleave between any
    two of them. ssh-keygen is a process of its own: when stoat is killed while it
    waits for it, the lock is released and ssh-keygen goes on. */
module Keys {

  type Pid = nat

  /** One half of the key pair on disk; `key` tells which ssh-keygen run (or
      earlier installation) wrote it. */
  datatype Half = Absent | Present(key: nat)
  datatype Disk = Disk(priv: Half, pub: Half)

  datatype Pc =
    | Start                   // about to stat the private half, unlocked
    | SawPriv                 // about to stat the public half, unlocked
    | Wait                    // blocked in LockKeys
    | Recheck                 // holds the lock, about to stat the private half
    | RecheckPub              // holds the lock, about to stat the public half
    | Mkdir
    | RemovePriv
    | RemovePub
    | Keygen(child: Child)    // waiting for ssh-keygen
    | Chmod
    | Unlock(ok: bool)        // the deferred unlock, then return
    | Returned(ok: bool)
    | Orphan(child: Child)    // killed, but its ssh-keygen is still at work
    | Dead

  /** What ssh-keygen does next. It refuses to start over an existing file, but
      looks only once. */
  datatype Child = Look | WritePriv | WritePub(key: nat)

  /** `faulted`: some stat failed for another reason than absence, which
      pairExists takes for presence. */
  datatype Proc = Proc(pc: Pc, faulted: bool)

  datatype Holder = Free | Held(pid: Pid)
  datatype State = State(disk: Disk, lock: Holder, procs: map<Pid, Proc>, next: nat)

  datatype Label = Go | Fault | Die

  ghost predicate Init(s: State) {
    && s.lock == Free
    && (forall p | p in s.procs :: s.procs[p] == Proc(Start, false))
  }

  predicate Complete(d: Disk) { d.priv.Present? && d.pub.Present? }

  predicate Critical(pc: Pc) {
    match pc
    case Start | SawPriv | Wait | Returned(_) | Orphan(_) | Dead => false
    case _ => true
  }

  /** What one step leaves behind: the shared parts and the process itself. */
  datatype Effect = Effect(disk: Disk, lock: Holder, next: nat, proc: Proc)

  /** pairExists on one half. */
  function Stat(e: Effect, half: Half, fault: bool, present: Pc, absent: Pc): Effect {
    if fault then e.(proc := Proc(present, true))
    else e.(proc := e.proc.(pc := if half.Present? then present else absent))
  }

  function Goto(e: Effect, pc: Pc): Effect { e.(proc := e.proc.(pc := pc)) }

  /** One step of ssh-keygen, and where it leads: on to the next, or to the end. */
  function Generate(e: Effect, child: Child, fault: bool, next: Child -> Pc, end: bool -> Pc): Effect {
    if fault then Goto(e, end(false))
    else match child
      case Look => Goto(e, if e.disk == Disk(Absent, Absent) then next(WritePriv) else end(false))
      case WritePriv => Goto(e, next(WritePub(e.next))).(disk := e.disk.(priv := Present(e.next)), next := e.next + 1)
      case WritePub(k) => Goto(e, end(true)).(disk := e.disk.(pub := Present(k)))
  }

  /** One step of process p. Go is the call succeeding, Fault the call failing,
      Die the process being killed, upon which its lock is released. The steps of
      an orphan are those of the ssh-keygen it leaves behind. A step that cannot
      be taken leaves everything as it is. */
  function Act(e: Effect, p: Pid, l: Label): Effect {
    var fault := l == Fault;
    if e.proc.pc.Returned? || e.proc.pc.Dead? then e
    else if l == Die then
      var pc := if e.proc.pc.Keygen? then Orphan(e.proc.pc.child) else Dead;
      Goto(e, pc).(lock := if e.lock == Held(p) then Free else e.lock)
    else match e.proc.pc
      case Start => Stat(e, e.disk.priv, fault, SawPriv, Wait)
      case SawPriv => Stat(e, e.disk.pub, fault, Returned(true), Wait)
      case Wait =>
        if fault then Goto(e, Returned(false))
        else if e.lock.Free? then Goto(e, Recheck).(lock := Held(p))
        else e
      case Recheck => Stat(e, e.disk.priv, fault, RecheckPub, Mkdir)
      case RecheckPub => Stat(e, e.disk.pub, fault, Unlock(true), Mkdir)
      case Mkdir => Goto(e, if fault then Unlock(false) else RemovePriv)
      case RemovePriv => Goto(if fault then e else e.(disk := e.disk.(priv := Absent)), RemovePub)
      case RemovePub => Goto(if fault then e else e.(disk := e.disk.(pub := Absent)), Keygen(Look))
      case Keygen(child) => Generate(e, child, fault, c => Keygen(c), ok => if ok then Chmod else Unlock(false))
      case Chmod => Goto(e, Unlock(!fault))
      case Unlock(ok) => Goto(e, Returned(ok)).(lock := Free)
      case Orphan(child) => Generate(e, child, fault, c => Orphan(c), _ => Dead)
      case _ => e
  }

  function View(s: State, p: Pid): Effect
    requires p in s.procs
  {
    Effect(s.disk, s.lock, s.next, s.procs[p])
  }

  function Step(s: State, p: Pid, l: Label): State {
    if p !in s.procs then s
    else
      var e := Act(View(s, p), p, l);
      State(e.disk, e.lock, s.procs[p := e.proc], e.next)
  }

  function Exec(s: State, trace: seq<(Pid, Label)>): State
    decreases |trace|
  {
    if trace == [] then s else Exec(Step(s, trace[0].0, trace[0].1), trace[1..])
  }

  // ---- the inductive invariant ----------------------------------------------

  /** What the lock holder knows about the disk at each of its steps. */
  predicate HolderKnows(d: Disk, proc: Proc) {
    match proc.pc
    case RecheckPub => proc.faulted || d.priv.Present?
    case Mkdir | RemovePriv | RemovePub => !Complete(d)
    case Keygen(child) => !Complete(d) && LeftBy(d, child)
    case Chmod => Complete(d)
    case Unlock(ok) => ok && !proc.faulted ==> Complete(d)
    case _ => true
  }

  /** Things are as this ssh-keygen left them. */
  predicate LeftBy(d: Disk, child: Child) {
    match child
    case Look => true
    case WritePriv => d == Disk(Absent, Absent)
    case WritePub(k) => d == Disk(Present(k), Absent)
  }

  predicate ProcOk(d: Disk, lock: Holder, p: Pid, proc: Proc) {
    && (Critical(proc.pc) <==> lock == Held(p))
    && HolderKnows(d, proc)
    // whoever saw the private half, unlocked, will not be fooled by a stale public one
    && (proc == Proc(SawPriv, false) && d.pub.Present? ==> d.priv.Present?)
    && (proc == Proc(Returned(true), false) ==> Complete(d))
  }

  ghost predicate Inv(s: State) {
    forall p | p in s.procs :: ProcOk(s.disk, s.lock, p, s.procs[p])
  }

  /** An orphaned ssh-keygen that writes does so before anyone else has taken the
      lock or touched the files. All other steps are free. */
  predicate Undisturbed(e: Effect, l: Label) {
    e.proc.pc.Orphan? && l == Go ==> e.proc.pc.child.Look? || (e.lock.Free? && LeftBy(e.disk, e.proc.pc.child))
  }

  /** Every step of the run is. Runs in which ssh-keygen dies with its parent are
      the simplest of these. */
  ghost predicate OrphansUndisturbed(s: State, trace: seq<(Pid, Label)>)
    decreases |trace|
  {
    trace != [] ==>
      && (trace[0].0 in s.procs ==> Undisturbed(View(s, trace[0].0), trace[0].1))
      && OrphansUndisturbed(Step(s, trace[0].0, trace[0].1), trace[1..])
  }

  lemma OwnStep(e: Effect, p: Pid, l: Label)
    requires ProcOk(e.disk, e.lock, p, e.proc) && Undisturbed(e, l)
    ensures var f := Act(e, p, l); ProcOk(f.disk, f.lock, p, f.proc)
    ensures Complete(e.disk) ==> Act(e, p, l).disk == e.disk
  {
  }

  /** The step of one process breaks nothing another one relies on. */
  lemma OtherStep(e: Effect, p: Pid, l: Label, q: Pid, other: Proc)
    requires p != q && Undisturbed(e, l)
    requires ProcOk(e.disk, e.lock, p, e.proc) && ProcOk(e.disk, e.lock, q, other)
    ensures var f := Act(e, p, l); ProcOk(f.disk, f.lock, q, other)
  {
  }

  lemma StepKeepsInv(s: State, p: Pid, l: Label)
    requires Inv(s) && (p in s.procs ==> Undisturbed(View(s, p), l))
    ensures Inv(Step(s, p, l))
    ensures Complete(s.disk) ==> Step(s, p, l).disk == s.disk
  {
    if p in s.procs {
      OwnStep(View(s, p), p, l);
      forall q | q in s.procs && q != p ensures ProcOk(Step(s, p, l).disk, Step(s, p, l).lock, q, s.procs[q]) {
        OtherStep(View(s, p), p, l, q, s.procs[q]);
      }
    }
  }

  /** Mutual exclusion, and the pair once complete is never touched again. */
  lemma {:induction false} ExecKeepsInv(s: State, trace: seq<(Pid, Label)>)
    requires Inv(s) && OrphansUndisturbed(s, trace)
    ensures Inv(Exec(s, trace))
    ensures Complete(s.disk) ==> Exec(s, trace).disk == s.disk
    decreases |trace|
  {
    if trace != [] {
      StepKeepsInv(s, trace[0].0, trace[0].1);
      ExecKeepsInv(Step(s, trace[0].0, trace[0].1), trace[1..]);
    }
  }

  /** At s1, and from there to s2: a complete pair stays as it is, a process that
      has returned success (its own stats never failing oddly) has exactly that
      pair, and at most one process is past the lock. */
  ghost predicate PairStays(s1: State, s2: State) {
    && (Complete(s1.disk) ==> s2.disk == s1.disk)
    && (forall p | p in s1.procs && s1.procs[p] == Proc(Returned(true), false) :: Complete(s1.disk))
    && (forall p, q | p in s1.procs && q in s1.procs && Critical(s1.procs[p].pc) && Critical(s1.procs[q].pc) :: p == q)
  }

  /** Any number of processes, any interleaving, any failures and deaths, as long
      as no orphaned ssh-keygen writes once somebody else has started over. */
  lemma GeneratedPairIsForever(s0: State, before: seq<(Pid, Label)>, after: seq<(Pid, Label)>)
    requires Init(s0) && OrphansUndisturbed(s0, before) && OrphansUndisturbed(Exec(s0, before), after)
    ensures PairStays(Exec(s0, before), Exec(Exec(s0, before), after))
  {
    ExecKeepsInv(s0, before);
    var s1 := Exec(s0, before);
    ExecKeepsInv(s1, after);
    forall p | p in s1.procs ensures ProcOk(s1.disk, s1.lock, p, s1.procs[p]) {
    }
  }

  // ---- new pairs match --------------------------------------------------------

  ghost predicate FreshKeys(s: State, first: nat) {
    && s.next >= first
    && (forall p | p in s.procs && KeyOf(s.procs[p].pc) != Absent :: KeyOf(s.procs[p].pc).key >= first)
    && (Complete(s.disk) ==> s.disk.priv == s.disk.pub && s.disk.priv.key >= first)
  }

  /** The key an ssh-keygen is half way through writing. */
  function KeyOf(pc: Pc): Half {
    if (pc.Keygen? || pc.Orphan?) && pc.child.WritePub? then Present(pc.child.key) else Absent
  }

  lemma FreshStep(s: State, p: Pid, l: Label, first: nat)
    requires Inv(s) && FreshKeys(s, first) && (p in s.procs ==> Undisturbed(View(s, p), l))
    ensures FreshKeys(Step(s, p, l), first)
  {
    if p in s.procs {
      assert ProcOk(s.disk, s.lock, p, s.procs[p]);
    }
  }

  lemma {:induction false} ExecKeepsFresh(s: State, trace: seq<(Pid, Label)>, first: nat)
    requires Inv(s) && FreshKeys(s, first) && OrphansUndisturbed(s, trace)
    ensures FreshKeys(Exec(s, trace), first)
    decreases |trace|
  {
    if trace != [] {
      StepKeepsInv(s, trace[0].0, trace[0].1);
      FreshStep(s, trace[0].0, trace[0].1, first);
      ExecKeepsFresh(Step(s, trace[0].0, trace[0].1), trace[1..], first);
    }
  }

  ghost predicate HalvesMatch(s0: State, d: Disk) {
    Complete(d) ==> d.priv == d.pub && d.priv.key >= s0.next
  }

  /** A pair that was not there at the start was written by one ssh-keygen run:
      its halves match and neither is a leftover. */
  lemma NewPairMatches(s0: State, trace: seq<(Pid, Label)>)
    requires Init(s0) && !Complete(s0.disk) && OrphansUndisturbed(s0, trace)
    ensures HalvesMatch(s0, Exec(s0, trace).disk)
  {
    ExecKeepsFresh(s0, trace, s0.next);
  }

  // ---- it does get there ------------------------------------------------------

  function StepsLeft(pc: Pc): nat {
    match pc
    case Start => 13
    case SawPriv => 12
    case Wait => 11
    case Recheck => 10
    case RecheckPub => 9
    case Mkdir => 8
    case RemovePriv => 7
    case RemovePub => 6
    case Keygen(Look) => 5
    case Keygen(WritePriv) => 4
    case Keygen(WritePub(_)) => 3
    case Chmod => 2
    case Unlock(_) => 1
    case _ => 0
  }

  ghost predicate OnCourse(s: State, p: Pid) {
    && Inv(s) && p in s.procs && !s.procs[p].faulted
    && match s.procs[p].pc
       case Dead | Orphan(_) => false
       case Unlock(ok) => ok
       case Returned(ok) => ok
       case RemovePub => s.disk.priv.Absent?
       case Keygen(Look) => s.disk == Disk(Absent, Absent)
       case Start | SawPriv | Wait => s.lock.Free?
       case _ => true
  }

  /** From any point at which nothing has gone wrong, a process whose calls all
      succeed and whom no one disturbs ends in success with a complete pair. */
  lemma {:induction false} UndisturbedSucceeds(s: State, p: Pid) returns (trace: seq<(Pid, Label)>, last: State)
    requires OnCourse(s, p)
    ensures |trace| <= StepsLeft(s.procs[p].pc) && (forall i | 0 <= i < |trace| :: trace[i] == (p, Go))
    ensures last == Exec(s, trace)
    ensures last.procs == s.procs[p := Proc(Returned(true), false)] && Complete(last.disk)
    ensures Complete(s.disk) ==> last.disk == s.disk
    ensures !Complete(s.disk) ==>
      var half := if KeyOf(s.procs[p].pc).Present? then KeyOf(s.procs[p].pc) else Present(s.next);
      last.disk == Disk(half, half)
    decreases StepsLeft(s.procs[p].pc)
  {
    if s.procs[p].pc.Returned? {
      trace, last := [], s;
      assert ProcOk(s.disk, s.lock, p, s.procs[p]);
    } else {
      assert ProcOk(s.disk, s.lock, p, s.procs[p]);
      StepKeepsInv(s, p, Go);
      trace, last := UndisturbedSucceeds(Step(s, p, Go), p);
      trace := [(p, Go)] + trace;
    }
  }

  // ---- when no orphan can disturb ---------------------------------------------

  ghost predicate AtMostOne(s: State) { forall p, q | p in s.procs && q in s.procs :: p == q }

  /** With one process, or a pair to start with, no orphan gets in the way. */
  ghost predicate Calm(s: State) {
    && Inv(s) && (Complete(s.disk) || AtMostOne(s))
    && forall p | p in s.procs && s.procs[p].pc.Orphan? ::
         AtMostOne(s) && s.lock.Free? && LeftBy(s.disk, s.procs[p].pc.child)
  }

  lemma CalmStep(s: State, p: Pid, l: Label)
    requires Calm(s) && p in s.procs
    ensures Undisturbed(View(s, p), l) && Calm(Step(s, p, l))
  {
    StepKeepsInv(s, p, l);
    assert ProcOk(s.disk, s.lock, p, s.procs[p]);
  }

  lemma {:induction false} CalmRun(s: State, trace: seq<(Pid, Label)>)
    requires Calm(s)
    ensures Calm(Exec(s, trace)) && OrphansUndisturbed(s, trace)
    decreases |trace|
  {
    if trace != [] {
      if trace[0].0 in s.procs { CalmStep(s, trace[0].0, trace[0].1); }
      CalmRun(Step(s, trace[0].0, trace[0].1), trace[1..]);
    }
  }

  lemma {:induction false} ExecAppend(s: State, a: seq<(Pid, Label)>, b: seq<(Pid, Label)>)
    ensures Exec(s, a + b) == Exec(Exec(s, a), b)
    decreases |a|
  {
    hide Step;
    if a == [] {
      assert a + b == b;
    } else {
      assert (a + b)[1..] == a[1..] + b;
      ExecAppend(Step(s, a[0].0, a[0].1), a[1..], b);
    }
  }

  /** An undisturbed process on its way to a missing pair gets half way through
      writing one. */
  lemma {:induction false} GetsHalfWay(s: State, p: Pid) returns (trace: seq<(Pid, Label)>, last: State)
    requires OnCourse(s, p) && !Complete(s.disk) && StepsLeft(s.procs[p].pc) >= 4
    ensures last == Exec(s, trace) && Inv(last) && last.next > s.next
    ensures last.disk == Disk(Present(s.next), Absent) && last.lock == Held(p)
    ensures last.procs == s.procs[p := Proc(Keygen(WritePub(s.next)), false)]
    decreases StepsLeft(s.procs[p].pc)
  {
    var next := Step(s, p, Go);
    assert ProcOk(s.disk, s.lock, p, s.procs[p]);
    StepKeepsInv(s, p, Go);
    if s.procs[p].pc == Keygen(WritePriv) {
      trace, last := [(p, Go)], next;
      assert Exec(s, trace) == Exec(next, trace[1..]);
    } else {
      trace, last := GetsHalfWay(next, p);
      trace := [(p, Go)] + trace;
    }
  }

  lemma Killed(s: State, p: Pid, q: Pid)
    requires Inv(s) && p in s.procs && q in s.procs && p != q && s.procs[q] == Proc(Start, false)
    requires s.procs[p].pc.Keygen? && s.lock == Held(p)
    ensures
      var t := Step(s, p, Die);
      t == s.(lock := Free, procs := s.procs[p := s.procs[p].(pc := Orphan(s.procs[p].pc.child))]) && OnCourse(t, q)
  {
    StepKeepsInv(s, p, Die);
  }

  lemma OrphanWrites(s: State, p: Pid, k: nat)
    requires p in s.procs && s.procs[p].pc == Orphan(WritePub(k))
    ensures Step(s, p, Go).disk == s.disk.(pub := Present(k))
  {
  }

  lemma ExecOne(s: State, p: Pid, l: Label)
    ensures Exec(s, [(p, l)]) == Step(s, p, l)
  {
    hide Step;
    assert Exec(s, [(p, l)]) == Exec(Step(s, p, l), [(p, l)][1..]);
  }

  /** What an orphan can do: one process is killed half way through ssh-keygen,
      another generates a pair and returns, and then the first one's ssh-keygen
      writes its public half over it. */
  lemma OrphanOverwrites(s0: State, p: Pid, q: Pid) returns (before: seq<(Pid, Label)>, after: seq<(Pid, Label)>)
    requires Init(s0) && !Complete(s0.disk) && p in s0.procs && q in s0.procs && p != q
    ensures !PairStays(Exec(s0, before), Exec(Exec(s0, before), after))
    ensures !HalvesMatch(s0, Exec(s0, before + after).disk)
  {
    hide Exec, Step, OnCourse;
    StartsOnCourse(s0, p);
    var t1, s1 := GetsHalfWay(s0, p);
    Killed(s1, p, q);
    var s2 := Step(s1, p, Die);
    var t2, s3 := UndisturbedSucceeds(s2, q);
    OrphanWrites(s3, p, s0.next);
    ExecOne(s1, p, Die);
    ExecOne(s3, p, Go);
    ExecAppend(s0, t1, [(p, Die)]);
    ExecAppend(s0, t1 + [(p, Die)], t2);
    before, after := t1 + [(p, Die)] + t2, [(p, Go)];
    ExecAppend(s0, before, after);
    assert s3.disk == Disk(Present(s2.next), Present(s2.next));
    assert Step(s3, p, Go).disk == Disk(Present(s2.next), Present(s0.next));
  }

  lemma StartsOnCourse(s0: State, p: Pid)
    requires Init(s0) && p in s0.procs
    ensures OnCourse(s0, p) && StepsLeft(s0.procs[p].pc) >= 4
  {
  }

  /** Every run keeps the pair exactly when there was one to begin with or there is
      never more than one process. */
  lemma PairIsForeverExact(s0: State)
    requires Init(s0)
    ensures (forall before, after :: PairStays(Exec(s0, before), Exec(Exec(s0, before), after)))
      <==> Complete(s0.disk) || AtMostOne(s0)
  {
    hide PairStays, Exec;
    if Complete(s0.disk) || AtMostOne(s0) {
      assert Calm(s0);
      forall before, after ensures PairStays(Exec(s0, before), Exec(Exec(s0, before), after)) {
        CalmRun(s0, before);
        CalmRun(Exec(s0, before), after);
        GeneratedPairIsForever(s0, before, after);
      }
    } else {
      var p, q :| p in s0.procs && q in s0.procs && p != q;
      var before, after := OrphanOverwrites(s0, p, q);
    }
  }

  /** And every new pair is one of matching halves exactly when there is never more
      than one process. */
  lemma NewPairMatchesExact(s0: State)
    requires Init(s0) && !Complete(s0.disk)
    ensures (forall trace :: HalvesMatch(s0, Exec(s0, trace).disk)) <==> AtMostOne(s0)
  {
    hide HalvesMatch, Exec;
    if AtMostOne(s0) {
      assert Calm(s0);
      forall trace ensures HalvesMatch(s0, Exec(s0, trace).disk) {
        CalmRun(s0, trace);
        NewPairMatches(s0, trace);
      }
    } else {
      var p, q :| p in s0.procs && q in s0.procs && p != q;
      var before, after := OrphanOverwrites(s0, p, q);
    }
  }

  // ---- stats that fail oddly ----------------------------------------------------

  /** A process whose stats fail for another reason than absence takes the pair for
      present, and returns success without one. */
  lemma FailingStatsFool()
    ensures
      var s0 := State(Disk(Absent, Absent), Free, map[0 := Proc(Start, false)], 0);
      var last := Exec(s0, [(0, Fault), (0, Fault)]);
      Init(s0) && last.procs[0] == Proc(Returned(true), true) && !Complete(last.disk)
  {
    var s0 := State(Disk(Absent, Absent), Free, map[0 := Proc(Start, false)], 0);
    var s1 := Step(s0, 0, Fault);
    ExecAppend(s0, [(0, Fault)], [(0, Fault)]);
    ExecOne(s0, 0, Fault);
    ExecOne(s1, 0, Fault);
    assert [(0, Fault)] + [(0, Fault)] == [(0, Fault), (0, Fault)];
  }
}
