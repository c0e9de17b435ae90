/** Update, Create and Reconcile of internal/core on the files of one VM, with every
    read, write and rename allowed to fail. */
module Host {
  import opened Text
  import opened Render
  import opened Reconcile
  import opened Commit

  /** LoadSecrets turns down a file that anybody but its owner may touch. */
  predicate Readable(secrets: File<Secrets>) { secrets.File? ==> secrets.mode in {0, 0x80, 0x100, 0x180} }

  /** That is, no permission but reading and writing, and for the owner alone. */
  lemma ReadableExact(content: Secrets, mode: nat)
    requires mode < 0x200
    ensures Readable(File(content, mode)) <==> (mode as bv9) & !0x180 == 0
  {
    Bits(mode as bv9);
    assert ((mode as bv9) as int) == mode;
  }

  lemma Bits(b: bv9)
    ensures b & !0x180 == 0 <==> b == 0 || b == 0x80 || b == 0x100 || b == 0x180
  {
  }

  function Stored(secrets: File<Secrets>): Secrets { if secrets.File? then secrets.content else map[] }

  // ---- Update -------------------------------------------------------------------

  /** Update reads secrets.toml only if it may have to change. */
  predicate NeedsSecrets(vm: Record, p: Patch) {
    p.setParams != map[] || p.unsetParams != map[] || p.secrets != map[] || Dropped(vm.recipes, p) != {}
  }

  /** The edit is valid and everything it reads can be read. */
  predicate Staging(vm: File<Record>, secrets: File<Secrets>, catalog: Catalog, p: Patch, faults: set<Op>) {
    && vm.File? && LoadVm !in faults && PatchValid(vm.content, catalog, p)
    && (NeedsSecrets(vm.content, p) ==> Readable(secrets) && LoadSecrets !in faults)
  }

  /** A patch of nothing but numbers, shares and access, the numbers within bounds. */
  predicate FieldsOnly(p: Patch) {
    && p.recipes.None? && p.setParams == map[] && p.unsetParams == map[] && p.secrets == map[]
    && (p.ram.Some? ==> p.ram.value >= 256) && (p.cpus.Some? ==> p.cpus.value >= 1)
  }

  lemma NoEditsValid(catalog: Catalog, p: Patch)
    ensures FieldsOnly(p) ==> forall recipes :: EditsValid(recipes, catalog, p)
  {
  }

  function StagedSecrets(vm: Record, secrets: File<Secrets>, catalog: Catalog, p: Patch): (bool, Secrets) {
    StageSecrets(Stored(secrets), catalog, p, Dropped(vm.recipes, p))
  }

  predicate Begins(vm: File<Record>, secrets: File<Secrets>, catalog: Catalog, p: Patch, faults: set<Op>) {
    && Staging(vm, secrets, catalog, p, faults)
    && var s := StagedSecrets(vm.content, secrets, catalog, p); Prepared(vm, secrets, s.1, s.0, faults)
  }

  /** When Update succeeds. */
  predicate Succeeds(vm: File<Record>, secrets: File<Secrets>, catalog: Catalog, p: Patch, faults: set<Op>) {
    && Begins(vm, secrets, catalog, p, faults)
    && var s := StagedSecrets(vm.content, secrets, catalog, p); Swapped(secrets, s.1, s.0, faults)
  }

  lemma SecretsNotNeeded(vm: Record, a: Secrets, b: Secrets, catalog: Catalog, p: Patch)
    requires !NeedsSecrets(vm, p)
    ensures
      var dropped := Dropped(vm.recipes, p);
      !StageSecrets(a, catalog, p, dropped).0 && !StageSecrets(b, catalog, p, dropped).0
  {
  }

  /** What secrets.toml holds after the swap is what the update was to store. */
  lemma StoredAfter(secrets: File<Secrets>, catalog: Catalog, p: Patch, dropped: set<string>, faults: set<Op>)
    ensures
      var s := StageSecrets(Stored(secrets), catalog, p, dropped);
      var after := if s.0 then NewSecrets(secrets, s.1, faults) else secrets;
      Stored(after) == SecretsAfter(Stored(secrets), catalog, p, dropped)
  {
    hide StageSecrets, Clean;
  }

  // ---- Create -------------------------------------------------------------------

  const DEFAULT_CPUS := 4
  const DEFAULT_RAM := 4096

  /** What a creation meets: whether plan accepts the rest of the declaration (name,
      image, disk, the recipes' guests and dependencies) and finds a port, and
      whether each write and the provider succeed. */
  datatype Making = Making(plannable: bool, saved: bool, secretsSaved: bool, savedAgain: bool, provided: bool)

  /** The record that plan assembles. */
  function Assembled(spec: Spec): Record {
    var access := if spec.access == "" then "manage" else spec.access;
    var cpus := if spec.cpus == 0 then DEFAULT_CPUS else spec.cpus;
    var ram := if spec.ram == 0 then DEFAULT_RAM else spec.ram;
    Record(spec.frozen, cpus, ram, spec.recipes, spec.shares, map[], access, access == "exec")
  }

  function CreatePatch(spec: Spec): Patch { NO_PATCH.(setParams := spec.params, secrets := spec.secrets) }

  predicate Plans(spec: Spec, m: Making) { m.plannable && Assembled(spec).ram >= 256 && Assembled(spec).cpus >= 1 }

  /** When Create succeeds on a name that is free. */
  predicate Creates(secrets: File<Secrets>, catalog: Catalog, spec: Spec, faults: set<Op>, m: Making) {
    && Plans(spec, m) && m.saved
    && Readable(secrets) && LoadSecrets !in faults && EditsValid(spec.recipes, catalog, CreatePatch(spec))
    && (spec.secrets != map[] ==> m.secretsSaved) && (spec.params != map[] ==> m.savedAgain) && m.provided
  }

  /** What it leaves. */
  ghost predicate Created(secrets: Secrets, spec: Spec, vm': Record, secrets': Secrets) {
    && vm' == Assembled(spec).(params := vm'.params) && SameParams(vm'.params, spec.params)
    && secrets' == if spec.secrets == map[] then secrets else Clean(Overlay(secrets, spec.secrets))
  }

  // ---- Reconcile ----------------------------------------------------------------

  /** When Reconcile of a VM that exists succeeds. */
  ghost predicate Reconciles(vm: File<Record>, secrets: File<Secrets>, catalog: Catalog, spec: Spec, faults: set<Op>)
    requires vm.File?
  {
    && LoadVm !in faults && vm.content.frozen == spec.frozen
    && (NoDrift(vm.content, spec) ==> Readable(secrets) && LoadSecrets !in faults)
    && (|| Idle(vm.content, Stored(secrets), spec)
        || Succeeds(vm, secrets, catalog, ReconcilePatch(vm.content, spec), faults))
  }

  class Host {
    const dir: VmDir<Record>

    constructor (dir: VmDir<Record>)
      ensures this.dir == dir
    {
      this.dir := dir;
    }

    /** Update: success is the patch on both files. Failure leaves each file as it
        was, unless the rollback cannot put that file back. */
    method Update(catalog: Catalog, p: Patch, faults: set<Op>) returns (ok: bool)
      modifies dir
      ensures ok <==> Succeeds(old(dir.vm), old(dir.secrets), catalog, p, faults)
      ensures ok ==>
        && dir.vm.File? && dir.vm == NewVm(old(dir.vm), dir.vm.content, faults)
        && Updated(old(dir.vm).content, Stored(old(dir.secrets)), catalog, p, dir.vm.content, Stored(dir.secrets))
      ensures old(dir.vm).File? && faults == {} && FieldsOnly(p) ==> ok
      ensures !ok && UndoVmAway !in faults ==> dir.vm == old(dir.vm)
      ensures !ok && UndoSecretsAway !in faults ==> dir.secrets == old(dir.secrets)
      ensures !Begins(old(dir.vm), old(dir.secrets), catalog, p, faults) ==>
        dir.vm == old(dir.vm) && dir.secrets == old(dir.secrets)
      ensures ok && Readable(old(dir.secrets)) ==> Readable(dir.secrets)
    {
      NoEditsValid(catalog, p);
      hide EditsValid, StageSecrets, Edited, Get, Patched, SecretsAfter;
      if dir.vm.Missing? || LoadVm in faults { return false; }
      var vm := dir.vm.content;
      var fits, work := EditFields(vm, p);
      if !fits { return false; }
      var dropped := Dropped(vm.recipes, p);
      var stored: Secrets := map[];
      if NeedsSecrets(vm, p) {
        if !Readable(dir.secrets) || LoadSecrets in faults { return false; }
        stored := Stored(dir.secrets);
      } else {
        SecretsNotNeeded(vm, stored, Stored(dir.secrets), catalog, p);
      }
      if !EditsValid(if p.recipes.Some? then p.recipes.value else vm.recipes, catalog, p) { return false; }
      var params := EditParams(vm.params, catalog, p, dropped);
      PatchedParams(vm, p, params);
      work := work.(params := params);
      var staged := StageSecrets(stored, catalog, p, dropped);
      StoredAfter(dir.secrets, catalog, p, dropped, faults);
      ok := dir.CommitUpdate(work, staged.1, staged.0, faults);
    }

    /** Create: all of it, or nothing. What is left of an attempt is removed with the
        VM's directory. */
    method Create(catalog: Catalog, spec: Spec, faults: set<Op>, m: Making) returns (ok: bool)
      modifies dir
      ensures ok <==> old(dir.vm).Missing? && Creates(old(dir.secrets), catalog, spec, faults, m)
      ensures ok ==> dir.vm.File? && Created(Stored(old(dir.secrets)), spec, dir.vm.content, Stored(dir.secrets))
      ensures ok ==>
        var v := dir.vm.content;
        && v.frozen == spec.frozen && v.recipes == spec.recipes && v.shares == spec.shares
        && v.cpus == (if spec.cpus == 0 then 4 else spec.cpus) && v.cpus >= 1
        && v.ram == (if spec.ram == 0 then 4096 else spec.ram) && v.ram >= 256
        && v.access == (if spec.access == "" then "manage" else spec.access)
        && v.allowExec == (spec.access == "exec")
      ensures ok ==> forall r, n :: Get(dir.vm.content.params, r, n) == Get(spec.params, r, n)
      ensures ok ==> m.plannable && m.saved && m.provided
      ensures ok ==> Readable(dir.secrets)
      ensures !ok ==> dir.vm == old(dir.vm)
      ensures !ok ==>
        dir.secrets == if old(dir.vm).Missing? && Plans(spec, m) && m.saved then Missing else old(dir.secrets)
    {
      hide EditsValid, Get, SameParams, Overlay, Clean;
      if dir.vm.File? || !m.plannable { return false; }
      var v := Assembled(spec);
      if v.ram < 256 || v.cpus < 1 { return false; }
      if !m.saved { return false; }
      dir.vm := File(v, DEFAULT_MODE);
      if !Readable(dir.secrets) || LoadSecrets in faults || !EditsValid(spec.recipes, catalog, CreatePatch(spec)) {
        RemoveAll();
        return false;
      }
      var params := SetAll(v.params, spec.params);
      FreshParams(spec.params, params);
      if spec.secrets != map[] {
        if !m.secretsSaved {
          RemoveAll();
          return false;
        }
        dir.secrets := Staged(Overlay(Stored(dir.secrets), spec.secrets));
      }
      if spec.params != map[] {
        if !m.savedAgain {
          RemoveAll();
          return false;
        }
        dir.vm := File(v.(params := params), DEFAULT_MODE);
      }
      if !m.provided {
        RemoveAll();
        return false;
      }
      return true;
    }

    method RemoveAll()
      modifies dir
      ensures dir.vm == Missing && dir.secrets == Missing
    {
      dir.vm, dir.secrets := Missing, Missing;
    }

    /** Reconcile: a VM that is missing is created, and one that exists is brought in
        line with the declaration through Update. */
    method Reconcile(catalog: Catalog, spec: Spec, faults: set<Op>, m: Making) returns (ok: bool)
      modifies dir
      ensures old(dir.vm).File? && old(dir.vm).content.frozen != spec.frozen ==> !ok
      ensures old(dir.vm).Missing? ==> (ok <==> Creates(old(dir.secrets), catalog, spec, faults, m))
      ensures old(dir.vm).Missing? && ok ==>
        dir.vm.File? && Created(Stored(old(dir.secrets)), spec, dir.vm.content, Stored(dir.secrets))
      ensures old(dir.vm).File? ==> (ok <==> Reconciles(old(dir.vm), old(dir.secrets), catalog, spec, faults))
      ensures old(dir.vm).File? && ok ==>
        && dir.vm.File?
        && Reconciled(old(dir.vm).content, Stored(old(dir.secrets)), catalog, spec, dir.vm.content, Stored(dir.secrets))
      ensures ok && Readable(old(dir.secrets)) ==> Readable(dir.secrets)
      ensures !ok && UndoVmAway !in faults ==> dir.vm == old(dir.vm)
      ensures !ok && UndoSecretsAway !in faults && old(dir.vm).File? ==> dir.secrets == old(dir.secrets)
    {
      hide Drifts, PatchFor, PatchValid, Updated, Filtered, Succeeds, Begins, Created, Creates, Readable;
      if dir.vm.Missing? {
        ok := Create(catalog, spec, faults, m);
        return;
      }
      if LoadVm in faults { return false; }
      var vm := dir.vm.content;
      var comparable, drift := Diff(vm, spec);
      if !comparable { return false; }
      var given := FilterSecrets(spec.secrets, spec.recipes);
      assert drift == [] <==> NoDrift(vm, spec) by {
        if drift != [] { assert Drifts(vm, spec, drift[0]); }
      }
      if |drift| == 0 {
        if !Readable(dir.secrets) || LoadSecrets in faults { return false; }
        if given == Stored(dir.secrets) { return true; }
      }
      var patch := PatchOf(vm, spec, drift, given);
      assert FieldsOf(drift) == (set f: Field | Drifts(vm, spec, f));
      ok := Update(catalog, patch, faults);
    }
  }

  lemma FreshParams(declared: Params, params: Params)
    requires forall r, n ::
      Get(params, r, n) == if Get(declared, r, n).Set? then Get(declared, r, n) else Get(map[], r, n)
    ensures SameParams(params, declared) && (declared == map[] ==> SameParams(map[], declared))
  {
  }

  lemma CreatedDoesNotDrift(secrets: Secrets, spec: Spec, vm': Record, secrets': Secrets)
    requires Created(secrets, spec, vm', secrets')
    ensures NoDrift(vm', spec)
  {
    hide SameParams, Overlay, Clean, Join, RenderShares, Rendered;
    SameRendered(vm'.params, spec.params);
  }

  lemma CreatedSecrets(secrets: Secrets, spec: Spec, vm': Record, secrets': Secrets)
    requires Created(secrets, spec, vm', secrets')
    ensures secrets' == if spec.secrets == map[] then secrets else Clean(Overlay(secrets, spec.secrets))
  {
    hide SameParams, Overlay, Clean;
  }

  /** A VM built from the declaration does not differ from it: it is settled, and the
      next Reconcile changes nothing. */
  lemma CreatedIsSettled(secrets: Secrets, catalog: Catalog, spec: Spec, vm': Record, secrets': Secrets)
    requires Created(secrets, spec, vm', secrets') && EditsValid(spec.recipes, catalog, CreatePatch(spec))
    ensures Settled(vm', secrets', spec)
  {
    hide SameParams, Overlay, Clean, SecretsSettled, EditsValid, Created, NoDrift, Filtered;
    CreatedDoesNotDrift(secrets, spec, vm', secrets');
    CreatedSecrets(secrets, spec, vm', secrets');
    AllGiven(catalog, spec);
    if spec.secrets != map[] {
      SavingTwice(secrets, spec.secrets, {});
      assert Overlay(secrets, spec.secrets) - {} == Overlay(secrets, spec.secrets);
    } else {
      NoneGiven(secrets);
    }
  }

  /** Where a Reconcile is valid and no call fails, it succeeds. */
  lemma NothingFails(vm: File<Record>, secrets: File<Secrets>, catalog: Catalog, spec: Spec)
    requires vm.File? && Readable(secrets)
    ensures Reconciles(vm, secrets, catalog, spec, {}) <==> Reconcilable(vm.content, Stored(secrets), catalog, spec)
  {
    hide NoDrift, PatchValid, ReconcilePatch, StageSecrets, Clean, Filtered;
  }

  lemma AllGiven(catalog: Catalog, spec: Spec)
    requires EditsValid(spec.recipes, catalog, CreatePatch(spec))
    ensures Filtered(spec.secrets, spec.recipes) == spec.secrets
  {
  }

  lemma NoneGiven(secrets: Secrets)
    ensures SecretsSettled(secrets, map[])
  {
  }
}
