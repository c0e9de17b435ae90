/** Any number of processes creating, cloning, updating, destroying and forwarding
    at once, call by call. Create, Clone, Update and Destroy hold the data-root lock
    of internal/config/lock.go from before their first read to after their last
    write. Forward takes no lock, and Apply and Start save a record that they loaded
    without it. */
module PortRuns {
  import opened Ports

  type Pid = nat
  type FileId = nat

  /** The vm.toml files, and which VM's directory has which. Saving opens a file,
      which empties it, and then writes to whatever file was opened, wherever that
      is by then. */
  datatype Files = Files(dir: map<string, FileId>, data: map<FileId, Record>, next: FileId)

  /** An empty vm.toml parses. */
  const EMPTY: Record := Good(0, [])

  function View(f: Files): Root { map n | n in f.dir && f.dir[n] in f.data :: f.data[f.dir[n]] }

  function Opened(f: Files, name: string): FileId { if name in f.dir then f.dir[name] else f.next }

  function Open(f: Files, name: string): Files {
    if name in f.dir then Put(f, f.dir[name], EMPTY) else Install(f, name, EMPTY)
  }

  function Put(f: Files, id: FileId, r: Record): Files { f.(data := f.data[id := r]) }
  function Install(f: Files, name: string, r: Record): Files {
    Files(f.dir[name := f.next], f.data[f.next := r], f.next + 1)
  }
  function Unlink(f: Files, name: string): Files { f.(dir := f.dir - {name}) }
  function Link(f: Files, name: string, id: FileId): Files { f.(dir := f.dir[name := id]) }

  ghost predicate FilesOk(f: Files) {
    && (forall n | n in f.dir :: f.dir[n] in f.data)
    && (forall m, n | m in f.dir && n in f.dir && m != n :: f.dir[m] != f.dir[n])
    && (forall id | id in f.data :: id < f.next)
  }

  // ---- operations and steps -------------------------------------------------------

  datatype Op =
    | Create(name: string)
    | Clone(source: string, name: string)
    | Update(name: string, sshPort: Port)   // NoPort: the patch leaves the port alone
    | Destroy(name: string)
    | SetForwards(name: string, forwards: seq<Forward>)
    | Resave(name: string)                  // Apply, or Start: the ports as they were loaded

  type Whole = r: Record | r.Good? witness Good(0, [])

  /** What a listing of all VMs is for. */
  datatype Job =
    | Make(name: string)                                  // FreePort
    | Move(name: string, was: Whole, port: int)           // validateSSHPort
    | Expose(name: string, was: Whole, forwards: seq<Forward>)  // validateForwards

  datatype Pc =
    | Idle
    | Wait(op: Op)                                        // in config.Lock
    | Locked(op: Op)                                      // lock held, nothing read yet
    | Listing(job: Job, second: bool, todo: set<string>, l: Listed)  // List, then ListBroken, file by file
    | Planned(name: string, port: int, again: bool)       // about to open vm.toml
    | Filling(name: string, id: FileId, port: int, again: bool)  // opened, about to write
    | Made(name: string, port: int)                       // written; may be written again, or removed
    | Checked(name: string, now: Whole)                   // an update is validated, not yet committed
    | Swapping(name: string, saved: FileId, now: Whole)   // commitUpdate has moved vm.toml away
    | Installed(name: string, saved: FileId)              // the new one is in, and may have to go
    | Restoring(name: string, saved: FileId)              // the old one is to come back
    | Unlock
    | Saving(name: string, now: Whole)                    // loaded unlocked; about to open vm.toml
    | Emptied(id: FileId, now: Whole)                     // opened, about to write
    | Dead

  datatype Holder = Free | Held(pid: Pid)
  datatype State = State(files: Files, lock: Holder, procs: map<Pid, Pc>)

  /** Begin starts an operation; Read is some files of a listing being read; Pick is
      FreePort's answer; Go is the next call succeeding and Fail it failing, or a check;
      Again is another Save of the same Create; Part is a write that stops half way;
      Die kills the process. */
  datatype Label =
    | Begin(op: Op) | Read(names: set<string>) | Pick(port: int) | Go | Fail | Again | Part(record: Record) | Die

  datatype Effect = Effect(files: Files, lock: Holder, pc: Pc)

  /** Whether an operation takes the lock before it reads. */
  predicate Locks(op: Op) { !op.SetForwards? && !op.Resave? }

  predicate Critical(pc: Pc) {
    match pc
    case Idle | Wait(_) | Saving(_, _) | Emptied(_, _) | Dead => false
    case Listing(job, _, _, _) => !job.Expose?
    case _ => true
  }

  /** What can be left of a record when writing it stops half way: the port comes
      before the forwards. */
  predicate PartOf(x: Record, r: Whole) {
    match x
    case Broken => true
    case BrokenAt(port) => port == r.sshPort
    case Good(port, forwards) => x == EMPTY || (port == r.sshPort && forwards <= r.forwards)
  }

  const NOTHING: Listed := Listed(map[], map[])

  /** One step of process p. A label that does not fit leaves everything as it is. */
  ghost function Act(e: Effect, p: Pid, l: Label): Effect {
    if e.pc.Dead? then e
    else if l == Die then Effect(e.files, if e.lock == Held(p) then Free else e.lock, Dead)
    else match e.pc
      case Idle => if l.Begin? then e.(pc := Begun(e.files, l.op)) else e
      case Wait(op) =>
        if l == Fail then e.(pc := Idle)
        else if l == Go && e.lock.Free? then e.(lock := Held(p), pc := Locked(op))
        else e
      case Locked(op) => if l == Fail then e.(pc := Unlock) else if l == Go then Start(e, op) else e
      case Listing(job, second, todo, listed) => if l == Fail then e.(pc := Leave(job)) else List(e, l)
      case Unlock => if l == Go || l == Fail then e.(lock := Free, pc := Idle) else e
      case Saving(name, now) =>
        if l == Fail then e.(pc := Idle)
        else if l == Go then e.(files := Open(e.files, name), pc := Emptied(Opened(e.files, name), now))
        else e
      case Emptied(id, now) =>
        if l == Fail then e.(pc := Idle)
        else if Writes(l, now) then e.(files := Put(e.files, id, Wrote(l, now)), pc := Idle)
        else e
      case _ => Commit(e, l)
  }

  predicate Writes(l: Label, now: Whole) { l == Go || (l.Part? && PartOf(l.record, now)) }
  function Wrote(l: Label, now: Whole): Record { if l.Part? then l.record else now }

  /** Where a listing that comes to nothing leads. */
  function Leave(job: Job): Pc { if job.Expose? then Idle else Unlock }

  function Begun(f: Files, op: Op): Pc {
    var root := View(f);
    match op
    case SetForwards(name, forwards) =>
      if name !in root || !root[name].Good? then Idle
      else Listing(Expose(name, root[name], forwards), false, f.dir.Keys, NOTHING)
    case Resave(name) => if name in root && root[name].Good? then Saving(name, root[name]) else Idle
    case _ => Wait(op)
  }

  /** What an operation does once it has the lock: look at its VM, and list the others
      if it needs a port. */
  function Start(e: Effect, op: Op): Effect {
    var root := View(e.files);
    match op
    case Create(name) =>
      e.(pc := if name in root then Unlock else Listing(Make(name), false, e.files.dir.Keys, NOTHING))
    case Clone(source, name) =>
      e.(pc := if name in root || source !in root || !root[source].Good? then Unlock
               else Listing(Make(name), false, e.files.dir.Keys, NOTHING))
    case Update(name, port) =>
      if name !in root || !root[name].Good? then e.(pc := Unlock)
      else if port.NoPort? || port.number == root[name].sshPort then e.(pc := Checked(name, root[name]))
      else e.(pc := Listing(Move(name, root[name], port.number), false, e.files.dir.Keys, NOTHING))
    case Destroy(name) => Effect(Unlink(e.files, name), e.lock, Unlock)
    case _ => e.(pc := Unlock)
  }

  /** What reading some of the files adds to a listing. */
  function Heard(f: Files, second: bool, names: set<string>, l: Listed): Listed {
    var root := View(f);
    if second then l.(broken := l.broken + map n | n in names && n in root && !root[n].Good? :: root[n])
    else l.(vms := l.vms + map n | n in names && n in root && root[n].Good? :: root[n])
  }

  ghost function List(e: Effect, l: Label): Effect
    requires e.pc.Listing?
  {
    var pc := e.pc;
    if l.Read? then
      if !(l.names <= pc.todo) then e
      else e.(pc := pc.(todo := pc.todo - l.names, l := Heard(e.files, pc.second, l.names, pc.l)))
    else if pc.todo != {} then e
    else if !pc.second then if l == Go then e.(pc := pc.(second := true, todo := e.files.dir.Keys)) else e
    else match pc.job
      case Make(name) => if l.Pick? && FreeIn(pc.l, l.port) then e.(pc := Planned(name, l.port, false)) else e
      case Move(name, was, port) =>
        if l != Go then e
        else if SshPortAllowed(pc.l, name, was, port) then e.(pc := Checked(name, was.(sshPort := port)))
        else e.(pc := Unlock)
      case Expose(name, was, forwards) =>
        if l != Go then e
        else if AllowedIn(pc.l, name, was.sshPort, forwards) then e.(pc := Saving(name, was.(forwards := forwards)))
        else e.(pc := Idle)
  }

  /** The writes under the lock: the Saves of Create and Clone, and commitUpdate. */
  function Commit(e: Effect, l: Label): Effect {
    var f := e.files;
    match e.pc
    case Planned(name, port, again) =>
      if l == Go then e.(files := Open(f, name), pc := Filling(name, Opened(f, name), port, again))
      else if l == Fail then GiveUp(e, name, again)
      else e
    case Filling(name, id, port, again) =>
      if l == Go then e.(files := Put(f, id, Good(port, [])), pc := Made(name, port))
      else if l.Part? && PartOf(l.record, Good(port, [])) then GiveUp(e.(files := Put(f, id, l.record)), name, again)
      else if l == Fail then GiveUp(e, name, again)
      else e
    case Made(name, port) =>
      if l == Go then e.(pc := Unlock)
      else if l == Again then e.(pc := Planned(name, port, true))
      else if l == Fail then GiveUp(e, name, true)
      else e
    case Checked(name, now) =>
      if l == Go && name in f.dir then e.(files := Unlink(f, name), pc := Swapping(name, f.dir[name], now))
      else if l == Go || l == Fail then e.(pc := Unlock)
      else e
    case Swapping(name, saved, now) =>
      if l == Go then e.(files := Install(f, name, now), pc := Installed(name, saved))
      else if l == Fail then e.(pc := Restoring(name, saved))
      else e
    case Installed(name, saved) =>
      if l == Go then e.(pc := Unlock)
      else if l == Fail then e.(files := Unlink(f, name), pc := Restoring(name, saved))
      else e
    case Restoring(name, saved) =>
      if l == Go then e.(files := Link(f, name, saved), pc := Unlock)
      else if l == Fail then e.(pc := Unlock)
      else e
    case _ => e
  }

  /** A Create that fails removes what it made, except when its first Save fails. */
  function GiveUp(e: Effect, name: string, again: bool): Effect {
    Effect(if again then Unlink(e.files, name) else e.files, e.lock, Unlock)
  }

  ghost function Step(s: State, p: Pid, l: Label): State {
    if p !in s.procs then s
    else
      var e := Act(Effect(s.files, s.lock, s.procs[p]), p, l);
      State(e.files, e.lock, s.procs[p := e.pc])
  }

  ghost function Exec(s: State, trace: seq<(Pid, Label)>): State
    decreases |trace|
  {
    if trace == [] then s else Exec(Step(s, trace[0].0, trace[0].1), trace[1..])
  }

  ghost predicate Init(s: State) {
    FilesOk(s.files) && s.lock == Free && (forall p | p in s.procs :: s.procs[p] == Idle)
  }

  /** FreePort, whatever can be bound, gives one of the answers that Pick may give to
      Create and to Clone, whatever the listings heard. */
  method FreePortPicks(e: Effect, p: Pid, bindable: set<int>) returns (r: Port)
    requires e.pc.Listing? && e.pc.job.Make? && e.pc.second && e.pc.todo == {}
    ensures r.Port? ==> Act(e, p, Pick(r.number)).pc == Planned(e.pc.job.name, r.number, false)
  {
    r := FreePort(e.pc.l, bindable);
  }

  // ---- forwards never clash with the VM's own ports ------------------------------

  predicate CarriesConsistent(pc: Pc) {
    match pc
    case Listing(job, _, _, _) => job.Make? || SelfConsistent(job.was)
    case Checked(_, now) => SelfConsistent(now)
    case Swapping(_, _, now) => SelfConsistent(now)
    case Saving(_, now) => SelfConsistent(now)
    case Emptied(_, now) => SelfConsistent(now)
    case _ => true
  }

  ghost predicate Consistent(f: Files) { forall id | id in f.data :: SelfConsistent(f.data[id]) }

  lemma PartConsistent(x: Record, r: Whole)
    requires PartOf(x, r) && SelfConsistent(r)
    ensures SelfConsistent(x)
  {
    if x.Good? && x != EMPTY {
      assert forall i | 0 <= i < |x.forwards| :: x.forwards[i] == r.forwards[i];
    }
  }

  lemma ActConsistent(e: Effect, p: Pid, l: Label)
    requires Consistent(e.files) && CarriesConsistent(e.pc)
    ensures var f := Act(e, p, l); Consistent(f.files) && CarriesConsistent(f.pc)
  {
    hide SelfConsistent, AllowedIn, SshPortAllowed, PartOf, FreeIn;
    assert SelfConsistent(EMPTY) by { EmptyConsistent(0); }
    match e.pc
    case Listing(job, second, todo, heard) =>
      if job.Move? && SshPortAllowed(heard, job.name, job.was, job.port) {
        AllowedPortIsNew(heard, job.name, job.was, job.port);
      }
      if job.Expose? && AllowedIn(heard, job.name, job.was.sshPort, job.forwards) {
        ExposedConsistent(heard, job.name, job.was, job.forwards);
      }
    case Filling(_, _, port, _) =>
      EmptyConsistent(port);
      if l.Part? && PartOf(l.record, Good(port, [])) { PartConsistent(l.record, Good(port, [])); }
    case Emptied(_, now) => if l.Part? && PartOf(l.record, now) { PartConsistent(l.record, now); }
    case _ =>
  }

  lemma EmptyConsistent(port: int)
    ensures SelfConsistent(Good(port, []))
  {
  }

  lemma ExposedConsistent(l: Listed, name: string, was: Whole, forwards: seq<Forward>)
    requires AllowedIn(l, name, was.sshPort, forwards)
    ensures SelfConsistent(was.(forwards := forwards))
  {
  }

  ghost predicate AllConsistent(s: State) {
    Consistent(s.files) && forall p | p in s.procs :: CarriesConsistent(s.procs[p])
  }

  /** In every interleaving, half-written files included, each VM's forwards stay
      distinct and apart from its own ssh port. */
  lemma {:induction false} ForwardsStayConsistent(s: State, trace: seq<(Pid, Label)>)
    requires AllConsistent(s)
    ensures AllConsistent(Exec(s, trace))
    decreases |trace|
  {
    if trace != [] {
      var p, l := trace[0].0, trace[0].1;
      if p in s.procs { ActConsistent(Effect(s.files, s.lock, s.procs[p]), p, l); }
      hide Act, Consistent, CarriesConsistent;
      assert AllConsistent(Step(s, p, l));
      ForwardsStayConsistent(Step(s, p, l), trace[1..]);
    }
  }

  // ---- what each step does to the records ---------------------------------------

  lemma ViewPut(f: Files, id: FileId, r: Record)
    requires FilesOk(f) && id in f.data
    ensures FilesOk(Put(f, id, r))
    ensures forall n | n in f.dir && f.dir[n] == id :: View(Put(f, id, r)) == View(f)[n := r]
    ensures (forall n | n in f.dir :: f.dir[n] != id) ==> View(Put(f, id, r)) == View(f)
  {
  }

  lemma ViewInstall(f: Files, name: string, r: Record)
    requires FilesOk(f)
    ensures FilesOk(Install(f, name, r)) && View(Install(f, name, r)) == View(f)[name := r]
    ensures forall id | id in f.data :: Install(f, name, r).data[id] == f.data[id]
    ensures forall id | Aside(f, id) :: Aside(Install(f, name, r), id)
  {
  }

  lemma ViewOpen(f: Files, name: string)
    requires FilesOk(f)
    ensures
      var g := Open(f, name);
      && FilesOk(g) && View(g) == View(f)[name := EMPTY]
      && g.dir == f.dir[name := Opened(f, name)] && Opened(f, name) in g.data
  {
    if name in f.dir { ViewPut(f, f.dir[name], EMPTY); } else { ViewInstall(f, name, EMPTY); }
  }

  lemma ViewUnlink(f: Files, name: string)
    requires FilesOk(f)
    ensures FilesOk(Unlink(f, name)) && View(Unlink(f, name)) == View(f) - {name}
  {
  }

  lemma ViewLink(f: Files, name: string, id: FileId)
    requires FilesOk(f) && id in f.data && forall n | n in f.dir :: f.dir[n] != id
    ensures FilesOk(Link(f, name, id)) && View(Link(f, name, id)) == View(f)[name := f.data[id]]
  {
  }

  // ---- no two VMs share an ssh port -------------------------------------------------

  ghost predicate OthersFree(root: Root, name: string, r: Record) {
    forall n | n in root && n != name :: !Clash(root[n], r)
  }

  /** Writing a record keeps ports unique exactly when no other VM has its port. */
  lemma WriteExact(root: Root, name: string, r: Record)
    requires UniquePorts(root)
    ensures UniquePorts(root[name := r]) <==> OthersFree(root, name, r)
  {
    var after := root[name := r];
    if UniquePorts(after) {
      forall n | n in root && n != name ensures !Clash(root[n], r) {
        assert after[n] == root[n] && after[name] == r;
      }
    }
  }

  /** The records that a process with the lock may yet write or put back, and where. */
  ghost predicate MayWrite(f: Files, pc: Pc, n: string, r: Record) {
    match pc
    case Planned(name, port, _) => n == name && r == Good(port, [])
    case Filling(name, _, port, _) => n == name && r == Good(port, [])
    case Made(name, port) => n == name && r == Good(port, [])
    case Checked(name, now) => n == name && r == now
    case Swapping(name, saved, now) => n == name && (r == now || (saved in f.data && r == f.data[saved]))
    case Installed(name, saved) => n == name && saved in f.data && r == f.data[saved]
    case Restoring(name, saved) => n == name && saved in f.data && r == f.data[saved]
    case _ => false
  }

  /** The ports that may come of a listing. */
  predicate Wants(job: Job, port: int) {
    match job
    case Make(_) => FIRST <= port < END
    case Move(_, _, to) => port == to
    case Expose(_, _, _) => false
  }

  /** A listing that shows the port rules it out. */
  ghost predicate RuledOut(job: Job, l: Listed, port: int) {
    || (exists n | n in l.vms && (job.Make? || n != job.name) :: HoldsPort(l.vms[n], port))
    || (exists n | n in l.broken && (job.Make? || n != job.name) :: HoldsPort(l.broken[n], port))
  }

  /** The listing does not matter to n having r, has heard of r's port, or has yet to
      read it. */
  ghost predicate WillHear(pc: Pc, n: string, r: Record)
    requires pc.Listing?
  {
    || r.Broken? || r.sshPort == 0 || !Wants(pc.job, r.sshPort)
    || RuledOut(pc.job, pc.l, r.sshPort)
    || (if pc.second then n in pc.todo && !r.Good? else n in pc.todo || !r.Good?)
  }

  /** No file is read twice in a listing. */
  ghost predicate ReadOnce(pc: Pc)
    requires pc.Listing?
  {
    if pc.second then pc.todo !! pc.l.broken.Keys else pc.todo !! pc.l.vms.Keys && pc.l.broken == map[]
  }

  /** What process p knows of the files. */
  ghost predicate HandlesOk(f: Files, pc: Pc) {
    match pc
    case Listing(job, _, _, _) => job.Move? ==> job.name in f.dir
    case Filling(name, id, _, _) => name in f.dir && f.dir[name] == id && id in f.data
    case Checked(name, _) => name in f.dir
    case Swapping(_, saved, _) => Aside(f, saved)
    case Installed(_, saved) => Aside(f, saved)
    case Restoring(_, saved) => Aside(f, saved)
    case Emptied(id, _) => id in f.data
    case _ => true
  }

  /** A file that has been moved away. */
  ghost predicate Aside(f: Files, id: FileId) { id in f.data && forall n | n in f.dir :: f.dir[n] != id }

  ghost predicate PcOk(f: Files, lock: Holder, p: Pid, pc: Pc) {
    && (Critical(pc) <==> lock == Held(p))
    && HandlesOk(f, pc)
    && (forall n, r | MayWrite(f, pc, n, r) :: OthersFree(View(f), n, r))
    && (pc.Listing? ==> ReadOnce(pc))
    && (pc.Listing? && Critical(pc) ==> forall n | n in View(f) && n != pc.job.name :: WillHear(pc, n, View(f)[n]))
    && (pc.Wait? || pc.Locked? ==> Locks(pc.op))
  }

  ghost predicate AllOk(s: State) {
    && FilesOk(s.files) && UniquePorts(View(s.files))
    && (s.lock.Held? ==> s.lock.pid in s.procs)
    && forall p | p in s.procs :: PcOk(s.files, s.lock, p, s.procs[p])
  }

  /** Where a file is, or may be put back. */
  predicate PutBack(pc: Pc, n: string, id: FileId) {
    match pc
    case Swapping(name, saved, _) => n == name && id == saved
    case Installed(name, saved) => n == name && id == saved
    case Restoring(name, saved) => n == name && id == saved
    case _ => false
  }

  /** A process with the lock is not in the way of n having r: it is not about to give
      r's port to another VM, by a record already chosen or by a listing that has
      passed n by. */
  ghost predicate NotInTheWay(f: Files, pc: Pc, n: string, r: Record) {
    && (forall m, x | MayWrite(f, pc, m, x) && m != n :: !Clash(x, r))
    && (pc.Listing? && Critical(pc) && n != pc.job.name ==> WillHear(pc, n, r))
  }

  /** An unlocked write of r to an open file is safe: wherever the file is, or may be
      put back, no other VM has r's port or is about to get it. */
  ghost predicate Clear(s: State, id: FileId, r: Record) {
    && (forall n | n in s.files.dir && s.files.dir[n] == id ::
          && OthersFree(View(s.files), n, r)
          && forall q | q in s.procs :: NotInTheWay(s.files, s.procs[q], n, r))
    && (forall q, n | q in s.procs && PutBack(s.procs[q], n, id) :: OthersFree(View(s.files), n, r))
  }

  predicate SavesUnlocked(s: State, p: Pid, l: Label) {
    p in s.procs && s.procs[p].Emptied? && Writes(l, s.procs[p].now)
  }

  ghost predicate StepClear(s: State, p: Pid, l: Label) {
    SavesUnlocked(s, p, l) ==> Clear(s, s.procs[p].id, Wrote(l, s.procs[p].now))
  }

  /** Every unlocked write of the run is safe when it happens. */
  ghost predicate WritesClear(s: State, trace: seq<(Pid, Label)>)
    decreases |trace|
  {
    trace != [] ==>
      StepClear(s, trace[0].0, trace[0].1) && WritesClear(Step(s, trace[0].0, trace[0].1), trace[1..])
  }

  // ---- each step keeps it -----------------------------------------------------------

  lemma Smaller(root: Root, name: string)
    ensures UniquePorts(root) ==> UniquePorts(root - {name}) && UniquePorts(root[name := EMPTY])
    ensures forall n, r | OthersFree(root, n, r) ::
      OthersFree(root - {name}, n, r) && OthersFree(root[name := EMPTY], n, r)
  {
  }

  lemma OwnRecord(root: Root, name: string, x: Record)
    ensures forall r :: OthersFree(root[name := x], name, r) <==> OthersFree(root, name, r)
  {
    forall r ensures OthersFree(root[name := x], name, r) <==> OthersFree(root, name, r) {
      forall n | n in root && n != name ensures root[name := x][n] == root[n] {}
    }
  }

  lemma PartClashes(x: Record, r: Whole, a: Record)
    requires PartOf(x, r) && Clash(a, x)
    ensures Clash(a, r)
  {
  }

  lemma PartFree(root: Root, n: string, x: Record, r: Whole)
    requires PartOf(x, r) && OthersFree(root, n, r)
    ensures OthersFree(root, n, x)
  {
    forall m | m in root && m != n ensures !Clash(root[m], x) {
      if Clash(root[m], x) { PartClashes(x, r, root[m]); }
    }
  }

  ghost predicate Sound(e: Effect, p: Pid) {
    FilesOk(e.files) && UniquePorts(View(e.files)) && PcOk(e.files, e.lock, p, e.pc)
  }

  lemma GivesUp(e: Effect, p: Pid, name: string, again: bool)
    requires FilesOk(e.files) && UniquePorts(View(e.files)) && e.lock == Held(p)
    ensures Sound(GiveUp(e, name, again), p)
  {
    ViewUnlink(e.files, name);
    Smaller(View(e.files), name);
  }

  lemma OpenStep(e: Effect, p: Pid, l: Label)
    requires Sound(e, p) && (e.pc.Planned? || e.pc.Made?)
    ensures Sound(Commit(e, l), p)
  {
    hide UniquePorts, OthersFree, FilesOk, View, Open, GiveUp, Opened;
    var name := e.pc.name;
    GivesUp(e, p, name, if e.pc.Planned? then e.pc.again else true);
    if e.pc.Planned? {
      assert MayWrite(e.files, e.pc, name, Good(e.pc.port, []));
      ViewOpen(e.files, name);
      Smaller(View(e.files), name);
    }
  }

  lemma FillStep(e: Effect, p: Pid, l: Label)
    requires Sound(e, p) && e.pc.Filling?
    ensures Sound(Commit(e, l), p)
  {
    hide UniquePorts, OthersFree, FilesOk, View, GiveUp, PartOf;
    var f, name, id, again, r := e.files, e.pc.name, e.pc.id, e.pc.again, Good(e.pc.port, []);
    assert MayWrite(f, e.pc, name, r);
    if l == Go {
      ViewPut(f, id, r);
      WriteExact(View(f), name, r);
      OwnRecord(View(f), name, r);
    } else if l.Part? && PartOf(l.record, r) {
      ViewPut(f, id, l.record);
      PartFree(View(f), name, l.record, r);
      WriteExact(View(f), name, l.record);
      GivesUp(e.(files := Put(f, id, l.record)), p, name, again);
    } else {
      GivesUp(e, p, name, again);
    }
  }

  lemma SwapStep(e: Effect, p: Pid, l: Label)
    requires Sound(e, p) && (e.pc.Checked? || e.pc.Swapping?)
    ensures Sound(Commit(e, l), p)
  {
    hide UniquePorts, OthersFree, FilesOk;
    var f := e.files;
    var name, now := e.pc.name, e.pc.now;
    assert MayWrite(f, e.pc, name, now);
    match e.pc
    case Checked(_, _) =>
      ViewUnlink(f, name);
      Smaller(View(f), name);
      if name in f.dir { MovedAside(f, name); }
    case Swapping(_, saved, _) =>
      assert MayWrite(f, e.pc, name, f.data[saved]);
      ViewInstall(f, name, now);
      WriteExact(View(f), name, now);
      OwnRecord(View(f), name, now);
  }

  lemma MovedAside(f: Files, name: string)
    requires FilesOk(f) && UniquePorts(View(f)) && name in f.dir
    ensures Aside(Unlink(f, name), f.dir[name]) && OthersFree(View(f), name, f.data[f.dir[name]])
  {
    var root := View(f);
    assert root[name] == f.data[f.dir[name]];
  }

  lemma RestoreStep(e: Effect, p: Pid, l: Label)
    requires Sound(e, p) && (e.pc.Installed? || e.pc.Restoring?)
    ensures Sound(Commit(e, l), p)
  {
    hide UniquePorts, OthersFree, FilesOk;
    var f := e.files;
    var name, saved := e.pc.name, e.pc.saved;
    assert MayWrite(f, e.pc, name, f.data[saved]);
    match e.pc
    case Installed(_, _) =>
      ViewUnlink(f, name);
      Smaller(View(f), name);
    case Restoring(_, _) =>
      ViewLink(f, name, saved);
      WriteExact(View(f), name, f.data[saved]);
  }

  lemma ListStep(e: Effect, p: Pid, l: Label)
    requires Sound(e, p) && e.pc.Listing?
    requires Critical(e.pc)
    ensures Sound(List(e, l), p)
  {
    hide UniquePorts, FilesOk, PortFree, SshPortAllowed, AllowedIn, OthersFree, View;
    var root := View(e.files);
    var pc := e.pc;
    if l.Read? && l.names <= pc.todo {
      forall n | n in root && n != pc.job.name ensures WillHear(List(e, l).pc, n, root[n]) { Hears(e, l, n); }
    } else if pc.todo == {} && !pc.second {
      ViewKeys(e.files);
    } else if pc.todo == {} {
      if pc.job.Make? && l.Pick? && FreeIn(pc.l, l.port) {
        NotHeld(pc, l.port);
        ListingDone(root, pc, Good(l.port, []));
      }
      if pc.job.Move? && SshPortAllowed(pc.l, pc.job.name, pc.job.was, pc.job.port) {
        AllowedPortIsNew(pc.l, pc.job.name, pc.job.was, pc.job.port);
        NotShown(pc);
        ListingDone(root, pc, pc.job.was.(sshPort := pc.job.port));
      }
    }
  }

  lemma ViewKeys(f: Files)
    ensures View(f).Keys <= f.dir.Keys
  {
  }

  lemma NotShown(pc: Pc)
    requires pc.Listing? && pc.job.Move? && !ShownIn(pc.l, pc.job.name, pc.job.port)
    ensures !RuledOut(pc.job, pc.l, pc.job.port)
  {
  }

  lemma NotHeld(pc: Pc, port: int)
    requires pc.Listing? && pc.job.Make?
    ensures FreeIn(pc.l, port) <==> Wants(pc.job, port) && !RuledOut(pc.job, pc.l, port)
  {
  }

  /** A listing that is done has heard of every port. */
  lemma ListingDone(root: Root, pc: Pc, r: Whole)
    requires pc.Listing? && pc.second && pc.todo == {}
    requires forall n | n in root && n != pc.job.name :: WillHear(pc, n, root[n])
    requires Wants(pc.job, r.sshPort) && !RuledOut(pc.job, pc.l, r.sshPort)
    ensures OthersFree(root, pc.job.name, r)
  {
    forall n | n in root && n != pc.job.name ensures !Clash(root[n], r) { assert WillHear(pc, n, root[n]); }
  }

  lemma Hears(e: Effect, l: Label, n: string)
    requires e.pc.Listing? && l.Read? && l.names <= e.pc.todo && ReadOnce(e.pc)
    requires n in View(e.files) && n != e.pc.job.name && WillHear(e.pc, n, View(e.files)[n])
    ensures WillHear(List(e, l).pc, n, View(e.files)[n])
  {
    hide View;
    var pc, r := e.pc, View(e.files)[n];
    var h := Heard(e.files, pc.second, l.names, pc.l);
    if !r.Broken? && r.sshPort != 0 {
      if RuledOut(pc.job, pc.l, r.sshPort) {
        StillShown(e.files, pc, l.names, r.sshPort);
      } else if n in l.names {
        assert r.Good? == !pc.second ==> HoldsPort(if pc.second then h.broken[n] else h.vms[n], r.sshPort);
      }
    }
  }

  lemma StillShown(f: Files, pc: Pc, names: set<string>, port: int)
    requires pc.Listing? && names <= pc.todo && ReadOnce(pc) && RuledOut(pc.job, pc.l, port)
    ensures RuledOut(pc.job, Heard(f, pc.second, names, pc.l), port)
  {
    var h := Heard(f, pc.second, names, pc.l);
    if m :| m in pc.l.vms && (pc.job.Make? || m != pc.job.name) && HoldsPort(pc.l.vms[m], port) {
      assert h.vms[m] == pc.l.vms[m];
    } else {
      var m :| m in pc.l.broken && (pc.job.Make? || m != pc.job.name) && HoldsPort(pc.l.broken[m], port);
      assert h.broken[m] == pc.l.broken[m];
    }
  }

  lemma StartStep(e: Effect, p: Pid)
    requires Sound(e, p) && e.pc.Locked?
    ensures Sound(Start(e, e.pc.op), p)
  {
    hide UniquePorts, FilesOk, OthersFree, View;
    var op, root := e.pc.op, View(e.files);
    ViewKeys(e.files);
    if op.Destroy? {
      ViewUnlink(e.files, op.name);
      Smaller(root, op.name);
    }
    if op.Update? && op.name in root { OwnPort(root, op.name); }
  }

  lemma OwnPort(root: Root, n: string)
    requires UniquePorts(root) && n in root
    ensures OthersFree(root, n, root[n])
  {
  }

  lemma ExposeStep(e: Effect, p: Pid, l: Label)
    requires Sound(e, p) && e.pc.Listing?
    requires !Critical(e.pc)
    ensures Sound(List(e, l), p)
  {
    hide UniquePorts, FilesOk, OthersFree, View, AllowedIn;
  }

  lemma UnlockedStep(e: Effect, p: Pid, l: Label)
    requires Sound(e, p) && (e.pc.Saving? || e.pc.Emptied?) && l != Die
    requires e.pc.Emptied? && Writes(l, e.pc.now) ==>
      forall n | n in e.files.dir && e.files.dir[n] == e.pc.id :: OthersFree(View(e.files), n, Wrote(l, e.pc.now))
    ensures Sound(Act(e, p, l), p)
  {
    hide UniquePorts, FilesOk, OthersFree, View, PartOf, Open, Opened;
    var f := e.files;
    match e.pc
    case Saving(name, _) =>
      ViewOpen(f, name);
      Smaller(View(f), name);
    case Emptied(id, now) =>
      var r := Wrote(l, now);
      ViewPut(f, id, r);
      if n :| n in f.dir && f.dir[n] == id { WriteExact(View(f), n, r); }
  }

  lemma OwnStep(e: Effect, p: Pid, l: Label)
    requires Sound(e, p)
    requires e.pc.Emptied? && Writes(l, e.pc.now) ==>
      forall n | n in e.files.dir && e.files.dir[n] == e.pc.id :: OthersFree(View(e.files), n, Wrote(l, e.pc.now))
    ensures Sound(Act(e, p, l), p)
  {
    hide UniquePorts, FilesOk, OthersFree, View, PartOf, Open, Opened, Commit, Start, List;
    if l != Die {
      match e.pc
      case Locked(_) => StartStep(e, p);
      case Listing(job, _, _, _) => if Critical(e.pc) { ListStep(e, p, l); } else { ExposeStep(e, p, l); }
      case Saving(_, _) => UnlockedStep(e, p, l);
      case Emptied(_, _) => UnlockedStep(e, p, l);
      case Planned(_, _, _) => OpenStep(e, p, l);
      case Made(_, _) => OpenStep(e, p, l);
      case Filling(_, _, _, _) => FillStep(e, p, l);
      case Checked(_, _) => SwapStep(e, p, l);
      case Swapping(_, _, _) => SwapStep(e, p, l);
      case Installed(_, _) => RestoreStep(e, p, l);
      case Restoring(_, _) => RestoreStep(e, p, l);
      case _ =>
    }
  }

  /** Emptying a file is in nobody's way. */
  lemma OpenKeeps(f: Files, name: string, lock: Holder, q: Pid, pc: Pc)
    requires FilesOk(f) && PcOk(f, lock, q, pc)
    ensures PcOk(Open(f, name), lock, q, pc)
  {
    hide UniquePorts, OthersFree;
    var g := Open(f, name);
    ViewOpen(f, name);
    Smaller(View(f), name);
    OpenHandles(f, name, pc);
    forall n, r | MayWrite(g, pc, n, r) ensures OthersFree(View(g), n, r) { assert MayWrite(f, pc, n, r); }
  }

  lemma OpenHandles(f: Files, name: string, pc: Pc)
    requires FilesOk(f) && HandlesOk(f, pc)
    ensures var g := Open(f, name); HandlesOk(g, pc) && forall n, r :: MayWrite(g, pc, n, r) <==> MayWrite(f, pc, n, r)
  {
  }

  /** Nor is a write that is clear. */
  lemma PutKeeps(f: Files, id: FileId, r: Record, lock: Holder, q: Pid, pc: Pc)
    requires FilesOk(f) && id in f.data && PcOk(f, lock, q, pc)
    requires forall n | n in f.dir && f.dir[n] == id :: NotInTheWay(f, pc, n, r)
    requires forall n | PutBack(pc, n, id) :: OthersFree(View(f), n, r)
    ensures PcOk(Put(f, id, r), lock, q, pc)
  {
    hide UniquePorts, OthersFree, WillHear;
    var g := Put(f, id, r);
    ViewPut(f, id, r);
    if n :| n in f.dir && f.dir[n] == id {
      OwnRecord(View(f), n, r);
      forall m, x | MayWrite(g, pc, m, x) ensures OthersFree(View(g), m, x) {
        assert MayWrite(f, pc, m, x) by { PutMayWrite(f, id, r, pc, m, x); }
        if m != n { OneMore(View(f), m, n, r, x); }
      }
    } else {
      forall m, x | MayWrite(g, pc, m, x) ensures OthersFree(View(g), m, x) {
        if !MayWrite(f, pc, m, x) { assert PutBack(pc, m, id); }
      }
    }
  }

  lemma PutMayWrite(f: Files, id: FileId, r: Record, pc: Pc, m: string, x: Record)
    requires HandlesOk(f, pc) && MayWrite(Put(f, id, r), pc, m, x)
    requires exists n :: n in f.dir && f.dir[n] == id
    ensures MayWrite(f, pc, m, x)
  {
  }

  lemma OneMore(root: Root, m: string, n: string, r: Record, x: Record)
    requires m != n && OthersFree(root, m, x) && !Clash(x, r)
    ensures OthersFree(root[n := r], m, x)
  {
  }

  lemma OtherStep(s: State, p: Pid, l: Label, q: Pid)
    requires FilesOk(s.files) && p in s.procs && q in s.procs && p != q && StepClear(s, p, l)
    requires PcOk(s.files, s.lock, p, s.procs[p]) && PcOk(s.files, s.lock, q, s.procs[q])
    ensures var e := Act(Effect(s.files, s.lock, s.procs[p]), p, l); PcOk(e.files, e.lock, q, s.procs[q])
  {
    hide UniquePorts, OthersFree, WillHear, PartOf, View, FilesOk, ReadOnce, Open, Opened;
    if l != Die && s.procs[p].Saving? && l == Go {
      OpenKeeps(s.files, s.procs[p].name, s.lock, q, s.procs[q]);
    } else if SavesUnlocked(s, p, l) {
      PutKeeps(s.files, s.procs[p].id, Wrote(l, s.procs[p].now), s.lock, q, s.procs[q]);
    } else if Critical(s.procs[p]) {
      var e := Effect(s.files, s.lock, s.procs[p]);
      FilesGrow(e, p, l);
      Unaffected(s.files, Act(e, p, l).files, s.lock, Act(e, p, l).lock, q, s.procs[q]);
    }
  }

  lemma FilesGrow(e: Effect, p: Pid, l: Label)
    ensures e.files.data.Keys <= Act(e, p, l).files.data.Keys
  {
    hide View, PartOf, SshPortAllowed, AllowedIn, FreeIn;
  }

  /** A process without the lock relies on nothing but that the file it opened exists. */
  lemma Unaffected(f: Files, g: Files, lock: Holder, lock': Holder, q: Pid, pc: Pc)
    requires PcOk(f, lock, q, pc) && !Critical(pc) && lock' != Held(q) && f.data.Keys <= g.data.Keys
    ensures PcOk(g, lock', q, pc)
  {
  }

  lemma StepKeepsOk(s: State, p: Pid, l: Label)
    requires AllOk(s) && StepClear(s, p, l)
    ensures AllOk(Step(s, p, l))
  {
    if p in s.procs {
      hide Act, UniquePorts, OthersFree, View, FilesOk, PcOk, NotInTheWay, Writes, Wrote;
      var e := Effect(s.files, s.lock, s.procs[p]);
      OwnStep(e, p, l);
      forall q | q in s.procs && q != p ensures PcOk(Act(e, p, l).files, Act(e, p, l).lock, q, s.procs[q]) {
        OtherStep(s, p, l, q);
      }
      LockStays(e, p, l);
    }
  }

  lemma LockStays(e: Effect, p: Pid, l: Label)
    ensures Act(e, p, l).lock in {e.lock, Free, Held(p)}
  {
    hide View, PartOf, SshPortAllowed, AllowedIn, FreeIn;
  }

  /** In every interleaving of all the operations, call by call, with deaths and
      failures anywhere, no two VM records hold the same ssh port and at most one
      process has the lock, if no unlocked write gives a file a port that another VM
      has or is about to get. */
  lemma {:induction false} PortsStayUnique(s: State, trace: seq<(Pid, Label)>)
    requires AllOk(s) && WritesClear(s, trace)
    ensures AllOk(Exec(s, trace))
    decreases |trace|
  {
    if trace != [] {
      StepKeepsOk(s, trace[0].0, trace[0].1);
      hide AllOk, Step, StepClear;
      PortsStayUnique(Step(s, trace[0].0, trace[0].1), trace[1..]);
    }
  }

  lemma InitIsOk(s: State)
    requires Init(s) && UniquePorts(View(s.files)) && Consistent(s.files)
    ensures AllOk(s) && AllConsistent(s)
  {
  }
}
