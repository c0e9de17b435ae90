/** Making a VM match its declaration: Diff and Reconcile of
    internal/core/project.go over Update of internal/core/update.go, as far as the
    contents of vm.toml and secrets.toml go. Module Host has the files. */
module Reconcile {
  import opened Text
  import opened Render
  import Commit

  type Secrets = Commit.Secrets

  datatype Option<T> = None | Some(value: T)

  datatype Share = Share(tag: string, host: string, guest: string)

  /** What vm.toml says. `frozen` stands for image, provider and disk, which no
      declaration may change on an existing VM. */
  datatype Record = Record(frozen: string, cpus: int, ram: int, recipes: seq<string>, shares: seq<Share>,
                           params: Params, access: string, allowExec: bool)

  /** What the declaration says, after SpecFor; zero and "" leave the VM's value. */
  datatype Spec = Spec(frozen: string, cpus: int, ram: int, recipes: seq<string>, shares: seq<Share>,
                       params: Params, secrets: Secrets, access: string)

  /** One declared parameter of a recipe; `accepts` is recipes.Validate. */
  datatype Decl = Decl(secret: bool, accepts: string -> bool)
  type Catalog = map<string, map<string, Decl>>

  predicate IsSecret(catalog: Catalog, r: string, n: string) {
    r in catalog && n in catalog[r] && catalog[r][n].secret
  }

  // ---- SetParam, UnsetParam -----------------------------------------------------

  function SetParam(m: Params, r: string, n: string, v: string): (out: Params)
    ensures forall x, y :: Get(out, x, y) == if x == r && y == n then Set(v) else Get(m, x, y)
  {
    m[r := (if r in m then m[r] else map[])[n := v]]
  }

  function UnsetParam(m: Params, r: string, n: string): (out: Params)
    ensures forall x, y :: Get(out, x, y) == if x == r && y == n then Unset else Get(m, x, y)
  {
    if r !in m then m
    else
      var values := m[r] - {n};
      if values == map[] then
        assert forall y :: y in m[r] ==> y == n by { assert forall y :: y in m[r] && y != n ==> y in values; }
        m - {r}
      else m[r := values]
  }

  // ---- patches ------------------------------------------------------------------

  /** The part of core.Patch that Reconcile fills in. */
  datatype Patch = Patch(cpus: Option<int>, ram: Option<int>, recipes: Option<seq<string>>, shares: Option<seq<Share>>,
                         setParams: Params, unsetParams: map<string, set<string>>, secrets: Secrets,
                         access: Option<string>)

  const NO_PATCH: Patch := Patch(None, None, None, None, map[], map[], map[], None)

  /** All the checks of stageParamEdits, against the recipes the VM is to have. */
  predicate EditsValid(recipes: seq<string>, catalog: Catalog, p: Patch) {
    && (forall r | r in p.setParams :: r in recipes && r in catalog &&
          forall n | n in p.setParams[r] ::
            n in catalog[r] && !catalog[r][n].secret && catalog[r][n].accepts(p.setParams[r][n]))
    && (forall r | r in p.unsetParams :: r in recipes && r in catalog &&
          forall n | n in p.unsetParams[r] :: n in catalog[r])
    && (forall r | r in p.secrets :: r in recipes && r in catalog &&
          forall n | n in p.secrets[r] :: n in catalog[r] && catalog[r][n].secret && p.secrets[r][n] != "")
  }

  function Dropped(old_: seq<string>, p: Patch): set<string> {
    if p.recipes.None? then {} else set r | r in old_ && r !in p.recipes.value
  }

  predicate Unsets(catalog: Catalog, p: Patch, r: string, n: string) {
    r in p.unsetParams && n in p.unsetParams[r] && !IsSecret(catalog, r, n)
  }

  /** What an update leaves at a parameter. */
  function Edited(params: Params, catalog: Catalog, p: Patch, dropped: set<string>, r: string, n: string): Value {
    if r in dropped || Unsets(catalog, p, r, n) then Unset
    else if Get(p.setParams, r, n).Set? then Get(p.setParams, r, n)
    else Get(params, r, n)
  }

  method SetAll(m: Params, edits: Params) returns (out: Params)
    ensures forall r, n :: Get(out, r, n) == if Get(edits, r, n).Set? then Get(edits, r, n) else Get(m, r, n)
    ensures edits == map[] ==> out == m
  {
    out := m;
    var left := edits.Keys;
    while left != {}
      invariant left <= edits.Keys
      invariant forall r, n ::
        Get(out, r, n) == if r !in left && Get(edits, r, n).Set? then Get(edits, r, n) else Get(m, r, n)
      invariant edits == map[] ==> out == m
      decreases left
    {
      var r :| r in left;
      left := left - {r};
      var names := edits[r].Keys;
      while names != {}
        invariant names <= edits[r].Keys
        invariant forall x, n ::
          Get(out, x, n) ==
            if x !in left && !(x == r && n in names) && Get(edits, x, n).Set? then Get(edits, x, n) else Get(m, x, n)
        decreases names
      {
        var n :| n in names;
        names := names - {n};
        out := SetParam(out, r, n, edits[r][n]);
      }
    }
  }

  method UnsetAll(m: Params, catalog: Catalog, p: Patch) returns (out: Params)
    ensures forall r, n :: Get(out, r, n) == if Unsets(catalog, p, r, n) then Unset else Get(m, r, n)
    ensures p.unsetParams == map[] ==> out == m
  {
    out := m;
    var left := p.unsetParams.Keys;
    while left != {}
      invariant left <= p.unsetParams.Keys
      invariant forall r, n :: Get(out, r, n) == if r !in left && Unsets(catalog, p, r, n) then Unset else Get(m, r, n)
      invariant p.unsetParams == map[] ==> out == m
      decreases left
    {
      var r :| r in left;
      left := left - {r};
      var names := p.unsetParams[r];
      while names != {}
        invariant names <= p.unsetParams[r]
        invariant forall x, n ::
          Get(out, x, n) ==
            if x !in left && !(x == r && n in names) && Unsets(catalog, p, x, n) then Unset else Get(m, x, n)
        decreases names
      {
        var n :| n in names;
        names := names - {n};
        if !IsSecret(catalog, r, n) { out := UnsetParam(out, r, n); }
      }
    }
  }

  // ---- secrets ------------------------------------------------------------------

  function Overlay(stored: Secrets, more: Secrets): Secrets {
    map r | r in stored.Keys + more.Keys ::
      (if r in stored then stored[r] else map[]) + (if r in more then more[r] else map[])
  }

  function WithoutUnset(stored: Secrets, catalog: Catalog, p: Patch): Secrets {
    map r | r in stored ::
      map n | n in stored[r] && !(r in p.unsetParams && n in p.unsetParams[r] && IsSecret(catalog, r, n)) ::
        stored[r][n]
  }

  predicate UnsetsSecret(catalog: Catalog, p: Patch) {
    exists r, n | r in p.unsetParams && n in p.unsetParams[r] :: IsSecret(catalog, r, n)
  }

  /** stageParamEdits and the dropped recipes, on the secrets: whether secrets.toml
      is to be written, and what. */
  function StageSecrets(stored: Secrets, catalog: Catalog, p: Patch, dropped: set<string>): (bool, Secrets) {
    var touched := p.secrets != map[] || UnsetsSecret(catalog, p);
    var staged := if touched then Overlay(WithoutUnset(stored, catalog, p), p.secrets) else stored;
    (touched || exists r | r in dropped :: r in staged, staged - dropped)
  }

  /** What secrets.toml holds after an update. */
  function SecretsAfter(stored: Secrets, catalog: Catalog, p: Patch, dropped: set<string>): Secrets {
    var s := StageSecrets(stored, catalog, p, dropped);
    if s.0 then Commit.Clean(s.1) else stored
  }

  // ---- Update -------------------------------------------------------------------

  predicate PatchValid(vm: Record, catalog: Catalog, p: Patch) {
    && (p.ram.Some? ==> p.ram.value >= 256)
    && (p.cpus.Some? ==> p.cpus.value >= 1)
    && EditsValid(if p.recipes.Some? then p.recipes.value else vm.recipes, catalog, p)
  }

  /** The record after an update, parameters aside. */
  function Patched(vm: Record, p: Patch, params: Params): Record {
    vm.(cpus := if p.cpus.Some? then p.cpus.value else vm.cpus,
        ram := if p.ram.Some? then p.ram.value else vm.ram,
        recipes := if p.recipes.Some? then p.recipes.value else vm.recipes,
        shares := if p.shares.Some? then p.shares.value else vm.shares,
        params := params,
        access := if p.access.Some? then p.access.value else vm.access,
        allowExec := if p.access.Some? then p.access.value == "exec" else vm.allowExec)
  }

  lemma GetWithout(m: Params, dropped: set<string>)
    ensures forall r, n :: Get(m - dropped, r, n) == if r in dropped then Unset else Get(m, r, n)
    ensures dropped == {} ==> m - dropped == m
  {
  }

  /** SetParam, UnsetParam and the deletion of dropped recipes, in Update's order. */
  method EditParams(m: Params, catalog: Catalog, p: Patch, dropped: set<string>) returns (out: Params)
    ensures forall r, n :: Get(out, r, n) == Edited(m, catalog, p, dropped, r, n)
    ensures p.setParams == map[] && p.unsetParams == map[] && dropped == {} ==> out == m
  {
    hide Get, Unsets;
    out := SetAll(m, p.setParams);
    out := UnsetAll(out, catalog, p);
    GetWithout(out, dropped);
    out := out - dropped;
  }

  /** The fields of the working copy that Update sets one by one. */
  method EditFields(vm: Record, p: Patch) returns (ok: bool, work: Record)
    ensures ok <==> (p.ram.Some? ==> p.ram.value >= 256) && (p.cpus.Some? ==> p.cpus.value >= 1)
    ensures ok ==> work == Patched(vm, p, vm.params)
  {
    work := vm;
    if p.ram.Some? {
      if p.ram.value < 256 { return false, vm; }
      work := work.(ram := p.ram.value);
    }
    if p.cpus.Some? {
      if p.cpus.value < 1 { return false, vm; }
      work := work.(cpus := p.cpus.value);
    }
    if p.recipes.Some? { work := work.(recipes := p.recipes.value); }
    if p.shares.Some? { work := work.(shares := p.shares.value); }
    if p.access.Some? { work := work.(access := p.access.value, allowExec := p.access.value == "exec"); }
    ok := true;
  }

  lemma PatchedParams(vm: Record, p: Patch, params: Params)
    ensures Patched(vm, p, vm.params).(params := params) == Patched(vm, p, params)
    ensures Patched(vm, p, params).params == params
  {
  }

  /** What a successful Update leaves. */
  ghost predicate Updated(vm: Record, secrets: Secrets, catalog: Catalog, p: Patch, vm': Record, secrets': Secrets) {
    var dropped := Dropped(vm.recipes, p);
    && vm' == Patched(vm, p, vm'.params)
    && (forall r, n :: Get(vm'.params, r, n) == Edited(vm.params, catalog, p, dropped, r, n))
    && (p.setParams == map[] && p.unsetParams == map[] && dropped == {} ==> vm'.params == vm.params)
    && secrets' == SecretsAfter(secrets, catalog, p, dropped)
  }

  // ---- Diff ---------------------------------------------------------------------

  datatype Field = Cpus | Ram | Recipes | Shares | Parameters | Access

  function SharePart(s: Share): string { s.guest + "=" + s.host }

  function RenderShares(ss: seq<Share>): string {
    Join(seq(|ss|, i requires 0 <= i < |ss| => SharePart(ss[i])), ",")
  }

  /** Whether a field of the declaration disagrees with the record, as far as
      their texts tell. */
  ghost predicate Drifts(vm: Record, spec: Spec, f: Field) {
    match f
    case Cpus => spec.cpus != 0 && vm.cpus != spec.cpus
    case Ram => spec.ram != 0 && vm.ram != spec.ram
    case Recipes => Join(vm.recipes, ",") != Join(spec.recipes, ",")
    case Shares => RenderShares(vm.shares) != RenderShares(spec.shares)
    case Parameters => Rendered(vm.params) != Rendered(spec.params)
    case Access => spec.access != "" && vm.access != spec.access
  }

  ghost predicate NoDrift(vm: Record, spec: Spec) { forall f :: !Drifts(vm, spec, f) }

  method Diff(vm: Record, spec: Spec) returns (ok: bool, drift: seq<Field>)
    ensures ok <==> vm.frozen == spec.frozen
    ensures ok ==> forall f :: f in drift <==> Drifts(vm, spec, f)
  {
    hide Join, RenderShares, Rendered;
    drift := [];
    if vm.frozen != spec.frozen { return false, []; }
    if spec.cpus != 0 && vm.cpus != spec.cpus { drift := drift + [Cpus]; }
    if spec.ram != 0 && vm.ram != spec.ram { drift := drift + [Ram]; }
    if Join(vm.recipes, ",") != Join(spec.recipes, ",") { drift := drift + [Recipes]; }
    if RenderShares(vm.shares) != RenderShares(spec.shares) { drift := drift + [Shares]; }
    var was := RenderParams(vm.params);
    var now := RenderParams(spec.params);
    if was != now { drift := drift + [Parameters]; }
    if spec.access != "" && vm.access != spec.access { drift := drift + [Access]; }
    ok := true;
  }

  // ---- the patch of a reconcile -------------------------------------------------

  function Stale(have: Params, want: Params, r: string): set<string> {
    set n | r in have && n in have[r] && Get(want, r, n).Unset? :: n
  }

  function Removed(have: Params, want: Params, keep: seq<string>): map<string, set<string>> {
    map r | r in have && r in keep && Stale(have, want, r) != {} :: Stale(have, want, r)
  }

  method RemovedParams(have: Params, want: Params, keep: seq<string>) returns (out: map<string, set<string>>)
    ensures out == Removed(have, want, keep)
  {
    hide Get;
    out := map[];
    var left := have.Keys;
    while left != {}
      invariant left <= have.Keys
      invariant out == map r | r in Removed(have, want, keep) && r !in left :: Removed(have, want, keep)[r]
      decreases left
    {
      var r :| r in left;
      left := left - {r};
      if r in keep {
        var names := have[r].Keys;
        var stale: set<string> := {};
        while names != {}
          invariant names <= have[r].Keys
          invariant stale == set n | n in Stale(have, want, r) && n !in names
          decreases names
        {
          var n :| n in names;
          names := names - {n};
          if Get(want, r, n).Unset? { stale := stale + {n}; }
        }
        assert stale == Stale(have, want, r);
        if stale != {} { out := out[r := stale]; }
      }
    }
  }

  function Filtered(secrets: Secrets, recipes: seq<string>): Secrets {
    map r | r in secrets && r in recipes :: secrets[r]
  }

  method FilterSecrets(secrets: Secrets, recipes: seq<string>) returns (out: Secrets)
    ensures out == Filtered(secrets, recipes)
  {
    out := map[];
    var left := secrets.Keys;
    while left != {}
      invariant left <= secrets.Keys
      invariant out == map r | r in secrets && r in recipes && r !in left :: secrets[r]
      decreases left
    {
      var r :| r in left;
      left := left - {r};
      if r in recipes { out := out[r := secrets[r]]; }
    }
  }

  function PatchFor(vm: Record, spec: Spec, drift: set<Field>, secrets: Secrets): Patch {
    Patch(if Cpus in drift then Some(spec.cpus) else None,
          if Ram in drift then Some(spec.ram) else None,
          if Recipes in drift then Some(spec.recipes) else None,
          if Shares in drift then Some(spec.shares) else None,
          if Parameters in drift then spec.params else map[],
          if Parameters in drift then Removed(vm.params, spec.params, spec.recipes) else map[],
          secrets,
          if Access in drift then Some(spec.access) else None)
  }

  function FieldsOf(drift: seq<Field>): set<Field> { set f | f in drift }

  method PatchOf(vm: Record, spec: Spec, drift: seq<Field>, secrets: Secrets) returns (p: Patch)
    ensures p == PatchFor(vm, spec, FieldsOf(drift), secrets)
  {
    hide Removed;
    p := NO_PATCH;
    for i := 0 to |drift|
      invariant p == PatchFor(vm, spec, FieldsOf(drift[..i]), map[])
    {
      assert FieldsOf(drift[..i + 1]) == FieldsOf(drift[..i]) + {drift[i]};
      match drift[i]
      case Cpus => p := p.(cpus := Some(spec.cpus));
      case Ram => p := p.(ram := Some(spec.ram));
      case Recipes => p := p.(recipes := Some(spec.recipes));
      case Shares => p := p.(shares := Some(spec.shares));
      case Parameters =>
        var removed := RemovedParams(vm.params, spec.params, spec.recipes);
        p := p.(setParams := spec.params, unsetParams := removed);
      case Access => p := p.(access := Some(spec.access));
    }
    assert drift[..|drift|] == drift;
    p := p.(secrets := secrets);
  }

  /** The patch that Reconcile hands to Update. */
  ghost function ReconcilePatch(vm: Record, spec: Spec): Patch {
    PatchFor(vm, spec, (set f: Field | Drifts(vm, spec, f)), Filtered(spec.secrets, spec.recipes))
  }

  /** Nothing to do, as far as Reconcile can tell. */
  ghost predicate Idle(vm: Record, secrets: Secrets, spec: Spec) {
    NoDrift(vm, spec) && Filtered(spec.secrets, spec.recipes) == secrets
  }

  ghost predicate Reconcilable(vm: Record, secrets: Secrets, catalog: Catalog, spec: Spec) {
    vm.frozen == spec.frozen && (Idle(vm, secrets, spec) || PatchValid(vm, catalog, ReconcilePatch(vm, spec)))
  }

  /** What a successful Reconcile leaves. */
  ghost predicate Reconciled(vm: Record, secrets: Secrets, catalog: Catalog, spec: Spec, vm': Record,
                             secrets': Secrets) {
    if Idle(vm, secrets, spec) then vm' == vm && secrets' == secrets
    else Updated(vm, secrets, catalog, ReconcilePatch(vm, spec), vm', secrets')
  }

  // ---- where a reconcile ends ---------------------------------------------------

  /** The texts that Diff compares tell the declaration and the record apart. */
  ghost predicate Legible(vm: Record, spec: Spec) {
    Listable(vm.recipes) && Listable(spec.recipes) && CleanParams(vm.params) && CleanParams(spec.params)
  }

  /** A stored parameter that no declaration will clear: a secret by now, or one of
      a recipe that neither list names. */
  predicate Lingers(vm: Record, spec: Spec, catalog: Catalog, r: string, n: string) {
    Get(spec.params, r, n).Unset? && if r in spec.recipes then IsSecret(catalog, r, n) else r !in vm.recipes
  }

  /** Whether one Reconcile settles the VM. */
  ghost predicate Clears(vm: Record, spec: Spec, catalog: Catalog) {
    if SameParams(vm.params, spec.params) then
      forall r, n | Get(spec.params, r, n).Set? :: r in spec.recipes || r !in vm.recipes
    else
      forall r, n | Get(vm.params, r, n).Set? :: !Lingers(vm, spec, catalog, r, n)
  }

  lemma CleanMix(a: Params, b: Params, c: Params)
    requires CleanParams(a) && CleanParams(b)
    requires forall r, n :: Get(c, r, n) == Unset || Get(c, r, n) == Get(a, r, n) || Get(c, r, n) == Get(b, r, n)
    ensures CleanParams(c)
  {
    forall e | e in Entries(c) ensures CleanEntry(e) {
      assert Get(c, e.recipe, e.name) == Set(e.value);
      assert e in Entries(a) || e in Entries(b);
    }
  }

  /** The recipes that go are those stored and not declared. */
  lemma DropsExactly(vm: Record, spec: Spec)
    requires Listable(vm.recipes) && Listable(spec.recipes)
    ensures forall r :: r in Dropped(vm.recipes, ReconcilePatch(vm, spec)) <==> r in vm.recipes && r !in spec.recipes
    ensures !Drifts(vm, spec, Recipes) ==> vm.recipes == spec.recipes
  {
    if !Drifts(vm, spec, Recipes) { JoinInjective(vm.recipes, spec.recipes); }
  }

  /** Every field but the parameters is settled by any successful Reconcile. */
  lemma FieldsSettle(vm: Record, spec: Spec, p: Patch, params: Params, f: Field)
    requires p == ReconcilePatch(vm, spec) && f != Parameters
    ensures !Drifts(Patched(vm, p, params), spec, f)
  {
    hide Join, RenderShares, Rendered, Filtered, Removed;
  }

  lemma UnsetsExactly(vm: Record, spec: Spec, catalog: Catalog, r: string, n: string)
    ensures Unsets(catalog, ReconcilePatch(vm, spec), r, n) <==>
      && Drifts(vm, spec, Parameters) && r in spec.recipes
      && Get(vm.params, r, n).Set? && Get(spec.params, r, n).Unset? && !IsSecret(catalog, r, n)
  {
    hide Drifts, Filtered;
    if r in vm.params { assert n in Stale(vm.params, spec.params, r) ==> Stale(vm.params, spec.params, r) != {}; }
  }

  /** One parameter when the parameters drift. */
  lemma ParameterSettles(vm: Record, spec: Spec, catalog: Catalog, dropped: set<string>, r: string, n: string)
    requires Drifts(vm, spec, Parameters) && forall x :: x in dropped <==> x in vm.recipes && x !in spec.recipes
    requires Get(spec.params, r, n).Set? ==> r in spec.recipes || r !in vm.recipes
    ensures Edited(vm.params, catalog, ReconcilePatch(vm, spec), dropped, r, n) == Get(spec.params, r, n)
      <==> !(Get(vm.params, r, n).Set? && Lingers(vm, spec, catalog, r, n))
  {
    hide Drifts, Removed, Filtered, IsSecret, Unsets;
    UnsetsExactly(vm, spec, catalog, r, n);
  }

  /** A declared parameter of a drifting table belongs to a recipe the VM is to have. */
  lemma DeclaredBelongs(vm: Record, spec: Spec, catalog: Catalog, r: string, n: string)
    requires Listable(vm.recipes) && Listable(spec.recipes)
    requires PatchValid(vm, catalog, ReconcilePatch(vm, spec)) && Drifts(vm, spec, Parameters)
    requires Get(spec.params, r, n).Set?
    ensures r in spec.recipes
  {
    hide Drifts, Filtered, Removed;
    DropsExactly(vm, spec);
  }

  lemma ParamsSettle(vm: Record, secrets: Secrets, catalog: Catalog, spec: Spec, vm': Record, secrets': Secrets)
    requires Legible(vm, spec) && PatchValid(vm, catalog, ReconcilePatch(vm, spec))
    requires Updated(vm, secrets, catalog, ReconcilePatch(vm, spec), vm', secrets')
    ensures SameParams(vm'.params, spec.params) <==> Clears(vm, spec, catalog)
  {
    hide Drifts, PatchFor, Filtered, Edited, Lingers, SecretsAfter, Get, PatchValid, Patched, Listable, CleanParams;
    var p := ReconcilePatch(vm, spec);
    var dropped := Dropped(vm.recipes, p);
    DropsExactly(vm, spec);
    RenderedExact(vm.params, spec.params);
    DriftMeans(vm, spec);
    forall r, n ensures Get(vm'.params, r, n) == Get(spec.params, r, n) <==>
      if SameParams(vm.params, spec.params) then Get(spec.params, r, n).Set? ==> r in spec.recipes || r !in vm.recipes
      else Get(vm.params, r, n).Set? ==> !Lingers(vm, spec, catalog, r, n)
    {
      if SameParams(vm.params, spec.params) {
        Untouched(vm, spec, catalog, dropped, r, n);
      } else {
        if Get(spec.params, r, n).Set? { DeclaredBelongs(vm, spec, catalog, r, n); }
        ParameterSettles(vm, spec, catalog, dropped, r, n);
      }
    }
  }

  lemma DriftMeans(vm: Record, spec: Spec)
    ensures Drifts(vm, spec, Parameters) <==> Rendered(vm.params) != Rendered(spec.params)
  {
    hide Join, RenderShares, Rendered;
  }

  lemma Untouched(vm: Record, spec: Spec, catalog: Catalog, dropped: set<string>, r: string, n: string)
    requires !Drifts(vm, spec, Parameters)
    ensures Edited(vm.params, catalog, ReconcilePatch(vm, spec), dropped, r, n) ==
      if r in dropped then Unset else Get(vm.params, r, n)
  {
    hide Drifts, Filtered;
  }

  lemma StaysClean(vm: Record, secrets: Secrets, catalog: Catalog, spec: Spec, vm': Record, secrets': Secrets)
    requires CleanParams(vm.params) && CleanParams(spec.params)
    requires Updated(vm, secrets, catalog, ReconcilePatch(vm, spec), vm', secrets')
    ensures CleanParams(vm'.params)
  {
    hide Drifts, Filtered, CleanParams, Removed, SecretsAfter, Unsets;
    CleanMix(vm.params, spec.params, vm'.params);
  }

  lemma RecipesSettle(vm: Record, secrets: Secrets, catalog: Catalog, spec: Spec, vm': Record, secrets': Secrets)
    requires Listable(vm.recipes) && Listable(spec.recipes)
    requires Reconciled(vm, secrets, catalog, spec, vm', secrets')
    ensures vm'.recipes == spec.recipes
  {
    hide Drifts, Filtered, Removed, Edited, SecretsAfter, Listable;
    DropsExactly(vm, spec);
  }

  /** After a successful Reconcile Diff reports nothing, exactly when no stored
      parameter was stuck; the record then has the declaration's parameters. */
  lemma ReconcileSettles(vm: Record, secrets: Secrets, catalog: Catalog, spec: Spec, vm': Record, secrets': Secrets)
    requires Legible(vm, spec) && Reconcilable(vm, secrets, catalog, spec)
    requires Reconciled(vm, secrets, catalog, spec, vm', secrets')
    ensures NoDrift(vm', spec) <==> Clears(vm, spec, catalog)
    ensures vm'.recipes == spec.recipes && (SameParams(vm'.params, spec.params) <==> Clears(vm, spec, catalog))
  {
    hide Drifts, Filtered, PatchValid, Updated, Patched, Rendered, SameParams, Lingers, Listable, CleanParams;
    DropsExactly(vm, spec);
    RecipesSettle(vm, secrets, catalog, spec, vm', secrets');
    DriftMeans(vm, spec);
    DriftMeans(vm', spec);
    if Idle(vm, secrets, spec) {
      RenderedExact(vm.params, spec.params);
    } else {
      ParamsSettle(vm, secrets, catalog, spec, vm', secrets');
      StaysClean(vm, secrets, catalog, spec, vm', secrets');
      RenderedExact(vm'.params, spec.params);
      forall f | f != Parameters ensures !Drifts(vm', spec, f) {
        OtherFieldSettles(vm, secrets, catalog, spec, vm', secrets', f);
      }
    }
  }

  lemma OtherFieldSettles(vm: Record, secrets: Secrets, catalog: Catalog, spec: Spec, vm': Record, secrets': Secrets,
                          f: Field)
    requires Updated(vm, secrets, catalog, ReconcilePatch(vm, spec), vm', secrets') && f != Parameters
    ensures !Drifts(vm', spec, f)
  {
    hide Drifts, PatchFor, Edited, SecretsAfter;
    FieldsSettle(vm, spec, ReconcilePatch(vm, spec), vm'.params, f);
  }

  /** A condition a project can meet once and for all: parameters only of listed
      recipes, and none of them a secret. */
  lemma TidyClears(vm: Record, spec: Spec, catalog: Catalog)
    requires forall r, n | Get(vm.params, r, n).Set? :: r in vm.recipes && !IsSecret(catalog, r, n)
    requires forall r, n | Get(spec.params, r, n).Set? :: r in spec.recipes
    ensures Clears(vm, spec, catalog)
  {
    hide Get, IsSecret;
  }

  // ---- the list of recipes bounds everything else ---------------------------------

  /** Parameters and secrets are only of recipes the VM has. */
  ghost predicate Within(vm: Record, secrets: Secrets) {
    (forall r, n | Get(vm.params, r, n).Set? :: r in vm.recipes) && forall r | r in secrets :: r in vm.recipes
  }

  /** Every update keeps that, reconciling or not. */
  lemma UpdateKeepsWithin(vm: Record, secrets: Secrets, catalog: Catalog, p: Patch, vm': Record, secrets': Secrets)
    requires Within(vm, secrets) && PatchValid(vm, catalog, p) && Updated(vm, secrets, catalog, p, vm', secrets')
    ensures Within(vm', secrets')
  {
    hide IsSecret, Unsets, UnsetsSecret;
    var dropped := Dropped(vm.recipes, p);
    forall r, n | Get(vm'.params, r, n).Set? ensures r in vm'.recipes {
      assert Edited(vm.params, catalog, p, dropped, r, n).Set?;
    }
  }

  // ---- a second reconcile -----------------------------------------------------------

  /** The declared secrets are already in place. */
  ghost predicate SecretsSettled(secrets: Secrets, given: Secrets) {
    given == map[] || Commit.Clean(Overlay(secrets, given)) == secrets
  }

  function At(s: Secrets, r: string): map<string, string> { if r in s then s[r] else map[] }

  lemma OverlayAt(stored: Secrets, more: Secrets, r: string)
    ensures At(Overlay(stored, more), r) == At(stored, r) + At(more, r)
  {
  }

  lemma CleanAt(s: Secrets)
    ensures forall r :: At(Commit.Clean(s), r) == At(s, r)
    ensures forall r | r in Commit.Clean(s) :: At(s, r) != map[]
  {
  }

  /** Saved secrets are known by their values. */
  lemma SavedAlike(s: Secrets, t: Secrets)
    requires forall r :: At(s, r) == At(t, r)
    ensures Commit.Clean(s) == Commit.Clean(t)
  {
    forall r ensures r in Commit.Clean(s) <==> r in Commit.Clean(t) {
      assert At(s, r) == At(t, r);
    }
    forall r | r in Commit.Clean(s) ensures Commit.Clean(s)[r] == Commit.Clean(t)[r] {
      assert At(s, r) == At(t, r);
    }
  }

  /** Laying the same secrets over what was saved with them saves the same again. */
  lemma SavingTwice(base: Secrets, given: Secrets, dropped: set<string>)
    requires forall r | r in given :: r !in dropped
    ensures SecretsSettled(Commit.Clean(Overlay(base, given) - dropped), given)
  {
    hide Overlay, Commit.Clean, SecretsSettled;
    var all := Overlay(base, given) - dropped;
    var saved := Commit.Clean(all);
    CleanAt(all);
    forall r ensures At(Overlay(saved, given), r) == At(all, r) {
      OverlayAt(base, given, r);
      OverlayAt(saved, given, r);
    }
    SavedAlike(Overlay(saved, given), all);
    SettledMeans(saved, given);
  }

  lemma SettledMeans(secrets: Secrets, given: Secrets)
    requires Commit.Clean(Overlay(secrets, given)) == secrets
    ensures SecretsSettled(secrets, given)
  {
  }

  lemma SecretsSettle(stored: Secrets, catalog: Catalog, p: Patch, dropped: set<string>)
    requires forall r | r in p.secrets :: r !in dropped
    ensures SecretsSettled(SecretsAfter(stored, catalog, p, dropped), p.secrets)
  {
    hide WithoutUnset, UnsetsSecret, Overlay, Commit.Clean;
    if p.secrets != map[] { SavingTwice(WithoutUnset(stored, catalog, p), p.secrets, dropped); }
  }

  lemma QuietPatch(vm: Record, spec: Spec)
    requires NoDrift(vm, spec)
    ensures ReconcilePatch(vm, spec) == NO_PATCH.(secrets := Filtered(spec.secrets, spec.recipes))
  {
    hide Drifts, Filtered, Removed;
  }

  /** An update that only brings secrets already in place changes nothing. */
  lemma QuietUpdate(vm: Record, secrets: Secrets, catalog: Catalog, given: Secrets, vm': Record, secrets': Secrets)
    requires SecretsSettled(secrets, given)
    requires Updated(vm, secrets, catalog, NO_PATCH.(secrets := given), vm', secrets')
    ensures vm' == vm && secrets' == secrets
  {
    hide Overlay, Commit.Clean, Edited, Get;
    var p := NO_PATCH.(secrets := given);
    assert !UnsetsSecret(catalog, p);
    NothingUnset(secrets, catalog, p);
    assert Overlay(secrets, given) - {} == Overlay(secrets, given);
  }

  lemma NothingUnset(secrets: Secrets, catalog: Catalog, p: Patch)
    requires p.unsetParams == map[]
    ensures WithoutUnset(secrets, catalog, p) == secrets
  {
    var left := WithoutUnset(secrets, catalog, p);
    forall r | r in secrets ensures left[r] == secrets[r] {
      assert left[r].Keys == secrets[r].Keys;
    }
  }

  lemma GivenStay(vm: Record, spec: Spec)
    requires Listable(vm.recipes) && Listable(spec.recipes)
    ensures forall r | r in Filtered(spec.secrets, spec.recipes) :: r !in Dropped(vm.recipes, ReconcilePatch(vm, spec))
  {
    hide Drifts, Removed, Listable;
    DropsExactly(vm, spec);
  }

  lemma QuietIsValid(vm: Record, secrets: Secrets, catalog: Catalog, spec: Spec, vm': Record, secrets': Secrets)
    requires PatchValid(vm, catalog, ReconcilePatch(vm, spec))
    requires Updated(vm, secrets, catalog, ReconcilePatch(vm, spec), vm', secrets')
    ensures PatchValid(vm', catalog, NO_PATCH.(secrets := Filtered(spec.secrets, spec.recipes)))
    ensures vm'.frozen == vm.frozen
  {
    hide Drifts, Filtered, Removed, Edited, SecretsAfter;
  }

  lemma UpdatedSecrets(vm: Record, secrets: Secrets, catalog: Catalog, spec: Spec, vm': Record, secrets': Secrets)
    requires Listable(vm.recipes) && Listable(spec.recipes)
    requires Updated(vm, secrets, catalog, ReconcilePatch(vm, spec), vm', secrets')
    ensures SecretsSettled(secrets', Filtered(spec.secrets, spec.recipes))
  {
    hide Drifts, Filtered, Removed, Edited, SecretsAfter, SecretsSettled, Listable;
    var p := ReconcilePatch(vm, spec);
    GivenStay(vm, spec);
    SecretsSettle(secrets, catalog, p, Dropped(vm.recipes, p));
  }

  /** No drift, and the declared secrets in place. The stored secrets may be more
      than the declared ones: Reconcile removes none that the declaration omits. */
  ghost predicate Settled(vm: Record, secrets: Secrets, spec: Spec) {
    NoDrift(vm, spec) && (Idle(vm, secrets, spec) || SecretsSettled(secrets, Filtered(spec.secrets, spec.recipes)))
  }

  /** A settled VM is a fixpoint: Reconcile leaves record and secrets alone. */
  lemma {:induction false} SettledIsFixed(vm: Record, secrets: Secrets, catalog: Catalog, spec: Spec, vm': Record,
                                          secrets': Secrets)
    requires Settled(vm, secrets, spec)
    requires Reconciled(vm, secrets, catalog, spec, vm', secrets')
    ensures vm' == vm && secrets' == secrets
  {
    hide Drifts, Filtered, NoDrift, Updated, ReconcilePatch, SecretsSettled;
    if !Idle(vm, secrets, spec) {
      QuietPatch(vm, spec);
      QuietUpdate(vm, secrets, catalog, Filtered(spec.secrets, spec.recipes), vm', secrets');
    }
  }

  /** One Reconcile reaches a settled VM, on which the next one is valid, too. */
  lemma {:induction false} ReconcileReachesSettled(vm: Record, secrets: Secrets, catalog: Catalog, spec: Spec,
                                                   vm': Record, secrets': Secrets)
    requires Legible(vm, spec) && Reconcilable(vm, secrets, catalog, spec)
    requires Reconciled(vm, secrets, catalog, spec, vm', secrets')
    ensures Settled(vm', secrets', spec) <==> Clears(vm, spec, catalog)
    ensures Clears(vm, spec, catalog) ==> Reconcilable(vm', secrets', catalog, spec)
  {
    hide Drifts, Filtered, Clears, Listable, CleanParams, NoDrift, PatchValid, Updated, ReconcilePatch, SecretsSettled;
    ReconcileSettles(vm, secrets, catalog, spec, vm', secrets');
    if !Idle(vm, secrets, spec) {
      UpdatedSecrets(vm, secrets, catalog, spec, vm', secrets');
      QuietIsValid(vm, secrets, catalog, spec, vm', secrets');
      if Clears(vm, spec, catalog) { QuietPatch(vm', spec); }
    }
  }

  /** Reconciling again succeeds, commits permitting, and changes nothing. */
  lemma {:induction false} SecondChangesNothing(vm: Record, secrets: Secrets, catalog: Catalog, spec: Spec,
                                                vm': Record, secrets': Secrets,
                                                vm'': Record, secrets'': Secrets)
    requires Legible(vm, spec) && Reconcilable(vm, secrets, catalog, spec) && Clears(vm, spec, catalog)
    requires Reconciled(vm, secrets, catalog, spec, vm', secrets')
    ensures Reconcilable(vm', secrets', catalog, spec)
    ensures Reconciled(vm', secrets', catalog, spec, vm'', secrets'') ==> vm'' == vm' && secrets'' == secrets'
  {
    hide Drifts, Filtered, Clears, Listable, CleanParams, NoDrift, PatchValid, Updated, ReconcilePatch, SecretsSettled,
      Settled, Reconciled, Reconcilable;
    ReconcileReachesSettled(vm, secrets, catalog, spec, vm', secrets');
    if Reconciled(vm', secrets', catalog, spec, vm'', secrets'') {
      SettledIsFixed(vm', secrets', catalog, spec, vm'', secrets'');
    }
  }

  // ---- what stays behind ----------------------------------------------------------

  const DECLARED: Catalog := map["r" := map["n" := Decl(true, _ => true)], "q" := map["n" := Decl(false, _ => true)]]

  /** A VM with recipe r that has one parameter, and a declaration of recipe r that
      has another table. */
  function OneParam(recipe: string): Record {
    Record("", 1, 512, ["r"], [], map[recipe := map["n" := "x"]], "manage", false)
  }

  function Declares(recipes: seq<string>, params: Params): Spec { Spec("", 0, 0, recipes, [], params, map[], "") }

  lemma OneParamGet(recipe: string)
    ensures forall r, n :: Get(OneParam(recipe).params, r, n) == if r == recipe && n == "n" then Set("x") else Unset
    ensures CleanParams(OneParam("r").params) && CleanParams(OneParam("q").params)
  {
  }

  /** A parameter that has become a secret outlives a successful Reconcile. */
  lemma SecretStays()
    ensures
      var vm, spec := OneParam("r"), Declares(["r"], map[]);
      Legible(vm, spec) && Reconcilable(vm, map[], DECLARED, spec) && !Clears(vm, spec, DECLARED)
  {
    hide Rendered, Entries;
    var vm, spec := OneParam("r"), Declares(["r"], map[]);
    OneParamGet("r");
    NoParamsClean();
    assert Get(spec.params, "r", "n") == Unset;
  }

  /** So does one of a recipe that neither list names. */
  lemma StrayStays()
    ensures
      var vm, spec := OneParam("q"), Declares(["r"], map[]);
      Legible(vm, spec) && Reconcilable(vm, map[], DECLARED, spec) && !Clears(vm, spec, DECLARED)
  {
    hide Rendered, Entries;
    var vm, spec := OneParam("q"), Declares(["r"], map[]);
    OneParamGet("q");
    NoParamsClean();
    assert Get(spec.params, "q", "n") == Unset;
  }

  /** And the drift of a declared parameter whose recipe is dropped stays. */
  lemma DroppedDriftStays()
    ensures
      var vm, spec := OneParam("r"), Declares([], OneParam("r").params);
      Legible(vm, spec) && Reconcilable(vm, map[], DECLARED, spec) && !Clears(vm, spec, DECLARED)
  {
    hide Rendered, Entries, Get, CleanParams;
    OneParamGet("r");
    assert Get(Declares([], OneParam("r").params).params, "r", "n").Set?;
  }

  lemma NoParamsClean()
    ensures CleanParams(map[])
  {
  }
}
