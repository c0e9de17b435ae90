/** Replacing vm.toml and secrets.toml together: commitUpdate of
    internal/core/update.go, with every system call allowed to fail. */
module Commit {

  type Secrets = map<string, map<string, string>>

  datatype File<T> = Missing | File(content: T, mode: nat)

  /** The calls of commitUpdate, in order; the last four are the rollback's. Before
      them, the two reads of Update. */
  datatype Op =
    | LoadVm | LoadSecrets
    | MakeStage | SaveVm | OpenVm | CloseVm | StatVmMode | ChmodVm
    | SaveSecrets | StatSecretsMode | StatStagedMode | ChmodSecrets
    | MoveVmAway | StatSecrets | MoveSecretsAway | MoveVmIn | StatStaged | MoveSecretsIn
    | UndoSecretsIn | UndoVmIn | UndoSecretsAway | UndoVmAway

  const DEFAULT_MODE: nat := 0x1A4  // 0644
  const SECRET_MODE: nat := 0x180   // 0600

  /** What SaveSecrets writes: recipes without values are left out, and when
      nothing is left there is no file. */
  function Clean(s: Secrets): Secrets { map r | r in s && s[r] != map[] :: s[r] }

  function Staged(s: Secrets): File<Secrets> {
    if Clean(s) == map[] then Missing else File(Clean(s), SECRET_MODE)
  }

  /** The staged secrets are given the old file's mode. */
  predicate ModeKept(secrets: File<Secrets>, new_: Secrets, faults: set<Op>) {
    secrets.File? && Clean(new_) != map[] && faults !! {StatSecretsMode, StatStagedMode}
  }

  /** None of the calls before vm.toml is moved fails. */
  predicate Prepared<R>(vm: File<R>, secrets: File<Secrets>, new_: Secrets, touched: bool, faults: set<Op>) {
    && vm.File?
    && faults !! {MakeStage, SaveVm, OpenVm, CloseVm, MoveVmAway}
    && (StatVmMode !in faults ==> ChmodVm !in faults)
    && (touched ==> SaveSecrets !in faults)
    && (touched && ModeKept(secrets, new_, faults) ==> ChmodSecrets !in faults)
  }

  /** None of the calls from then on fails. */
  predicate Swapped(secrets: File<Secrets>, new_: Secrets, touched: bool, faults: set<Op>) {
    && MoveVmIn !in faults
    && (touched ==> faults !! {StatSecrets, StatStaged})
    && (touched && secrets.File? ==> MoveSecretsAway !in faults)
    && (touched && Clean(new_) != map[] ==> MoveSecretsIn !in faults)
  }

  /** The new vm.toml keeps the old one's mode, if that could be read. */
  function NewVm<R>(vm: File<R>, record: R, faults: set<Op>): File<R>
    requires vm.File?
  {
    File(record, if StatVmMode in faults then DEFAULT_MODE else vm.mode)
  }

  function NewSecrets(secrets: File<Secrets>, new_: Secrets, faults: set<Op>): File<Secrets> {
    if Clean(new_) == map[] then Missing
    else File(Clean(new_), if ModeKept(secrets, new_, faults) then secrets.mode else SECRET_MODE)
  }

  /** The value of a secret in the file, if it has one. */
  function ValueAt(secrets: File<Secrets>, r: string, n: string): seq<string> {
    if secrets.File? && r in secrets.content && n in secrets.content[r] then [secrets.content[r][n]] else []
  }

  lemma StoredValues(secrets: File<Secrets>, new_: Secrets)
    requires if Clean(new_) == map[] then secrets == Missing else secrets.File? && secrets.content == Clean(new_)
    ensures forall r, n :: ValueAt(secrets, r, n) == if r in new_ && n in new_[r] then [new_[r][n]] else []
  {
    forall r, n ensures r in new_ && n in new_[r] <==> r in Clean(new_) && n in Clean(new_)[r] {}
  }

  /** A VM's directory. The stage directory is gone when commitUpdate returns,
      with whatever backups it still holds. */
  class VmDir<R(==)> {
    var vm: File<R>
    var secrets: File<Secrets>

    constructor (vm: File<R>, secrets: File<Secrets>)
      ensures this.vm == vm && this.secrets == secrets
    {
      this.vm, this.secrets := vm, secrets;
    }

    /** commitUpdate: success replaces both files, and failure neither, unless the
        rollback's own renames fail too. */
    method CommitUpdate(record: R, new_: Secrets, touched: bool, faults: set<Op>) returns (ok: bool)
      modifies this
      ensures ok <==>
        Prepared(old(vm), old(secrets), new_, touched, faults) && Swapped(old(secrets), new_, touched, faults)
      ensures ok ==> vm == NewVm(old(vm), record, faults)
      ensures ok ==> secrets == if touched then NewSecrets(old(secrets), new_, faults) else old(secrets)
      ensures old(vm).File? && faults == {} ==> ok
      ensures ok ==> vm.File? && vm.content == record && (StatVmMode !in faults ==> vm.mode == old(vm).mode)
      ensures ok && touched ==> forall r, n ::
        ValueAt(secrets, r, n) == if r in new_ && n in new_[r] then [new_[r][n]] else []
      ensures ok && touched && secrets.File? && faults !! {StatSecretsMode, StatStagedMode} ==>
        secrets.mode == if old(secrets).File? then old(secrets).mode else 0x180
      ensures ok && touched && (forall r | r in new_ :: new_[r] == map[]) ==> secrets == Missing
      ensures ok ==> faults !! {MakeStage, SaveVm, OpenVm, CloseVm, MoveVmAway, MoveVmIn}
      ensures ok && touched ==> SaveSecrets !in faults
      ensures !ok && UndoVmAway !in faults ==> vm == old(vm)
      ensures !ok && UndoSecretsAway !in faults ==> secrets == old(secrets)
      ensures !Prepared(old(vm), old(secrets), new_, touched, faults) ==> vm == old(vm) && secrets == old(secrets)
      ensures !ok && UndoVmAway in faults && Prepared(old(vm), old(secrets), new_, touched, faults)
        ==> vm == Missing || (UndoVmIn in faults && vm == NewVm(old(vm), record, faults))
    {
      if MakeStage in faults || SaveVm in faults { return false; }
      var stagedVm := File(record, DEFAULT_MODE);
      if vm.Missing? || OpenVm in faults || CloseVm in faults { return false; }
      if StatVmMode !in faults {
        if ChmodVm in faults { return false; }
        stagedVm := stagedVm.(mode := vm.mode);
      }
      var stagedSecrets: File<Secrets> := Missing;
      if touched {
        if SaveSecrets in faults { return false; }
        stagedSecrets := Staged(new_);
        if secrets.File? && StatSecretsMode !in faults {
          if stagedSecrets.File? && StatStagedMode !in faults {
            if ChmodSecrets in faults { return false; }
            stagedSecrets := stagedSecrets.(mode := secrets.mode);
          }
        }
      }
      if MoveVmAway in faults { return false; }
      var vmBackup := vm;
      vm := Missing;
      var secretBackup: File<Secrets> := Missing;
      if touched {
        if StatSecrets in faults {
          Rollback(vmBackup, secretBackup, false, false, faults);
          return false;
        } else if secrets.File? {
          if MoveSecretsAway in faults {
            Rollback(vmBackup, secretBackup, false, false, faults);
            return false;
          }
          secretBackup, secrets := secrets, Missing;
        }
      }
      if MoveVmIn in faults {
        Rollback(vmBackup, secretBackup, false, false, faults);
        return false;
      }
      vm := stagedVm;
      if touched {
        if StatStaged in faults {
          Rollback(vmBackup, secretBackup, true, false, faults);
          return false;
        } else if stagedSecrets.File? {
          if MoveSecretsIn in faults {
            Rollback(vmBackup, secretBackup, true, false, faults);
            return false;
          }
          secrets := stagedSecrets;
        }
        StoredValues(secrets, new_);
      }
      return true;
    }

    /** The rollback closure: what was installed goes, what was there comes back.
        A rename replaces whatever is in its way. */
    method Rollback(vmBackup: File<R>, secretBackup: File<Secrets>, vmInstalled: bool, secretInstalled: bool,
                    faults: set<Op>)
      modifies this
      ensures vm == if vmBackup.File? && UndoVmAway !in faults then vmBackup
                    else if vmInstalled && UndoVmIn !in faults then Missing else old(vm)
      ensures secrets == if secretBackup.File? && UndoSecretsAway !in faults then secretBackup
                         else if secretInstalled && UndoSecretsIn !in faults then Missing else old(secrets)
    {
      if secretInstalled && UndoSecretsIn !in faults { secrets := Missing; }
      if vmInstalled && UndoVmIn !in faults { vm := Missing; }
      if secretBackup.File? && UndoSecretsAway !in faults { secrets := secretBackup; }
      if vmBackup.File? && UndoVmAway !in faults { vm := vmBackup; }
    }
  }
}
