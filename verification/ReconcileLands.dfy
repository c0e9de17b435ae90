/** What an update and a reconcile come to, field by field, in terms of the record, the
    declaration and the patch alone. */
module ReconcileLands {
  import opened Text
  import opened Render
  import opened Reconcile
  import Commit

  // ---- an update ----------------------------------------------------------------

  /** The value of a parameter after an update: gone with its recipe, or if unset and
      not a secret; the one set; the one there was. */
  lemma ParamsLand(vm: Record, secrets: Secrets, catalog: Catalog, p: Patch, vm': Record, secrets': Secrets)
    requires Updated(vm, secrets, catalog, p, vm', secrets')
    ensures forall r, n ::
      var goes := p.recipes.Some? && r in vm.recipes && r !in p.recipes.value;
      var secret := r in catalog && n in catalog[r] && catalog[r][n].secret;
      var unset := r in p.unsetParams && n in p.unsetParams[r] && !secret;
      Get(vm'.params, r, n) ==
        if goes || unset then Unset
        else if r in p.setParams && n in p.setParams[r] then Set(p.setParams[r][n])
        else Get(vm.params, r, n)
  {
    hide SecretsAfter, Patched;
  }

  /** The other fields: what the patch has, or what there was. */
  lemma FieldsLand(vm: Record, secrets: Secrets, catalog: Catalog, p: Patch, vm': Record, secrets': Secrets)
    requires Updated(vm, secrets, catalog, p, vm', secrets')
    ensures vm'.frozen == vm.frozen
    ensures vm'.cpus == (if p.cpus.Some? then p.cpus.value else vm.cpus)
    ensures vm'.ram == (if p.ram.Some? then p.ram.value else vm.ram)
    ensures vm'.recipes == (if p.recipes.Some? then p.recipes.value else vm.recipes)
    ensures vm'.shares == (if p.shares.Some? then p.shares.value else vm.shares)
    ensures vm'.access == (if p.access.Some? then p.access.value else vm.access)
    ensures vm'.allowExec == (if p.access.Some? then p.access.value == "exec" else vm.allowExec)
  {
    hide SecretsAfter, Edited;
  }

  /** The value of a secret: gone with its recipe; the one given; gone if unset; the
      one there was. */
  lemma SecretsLand(stored: Secrets, catalog: Catalog, p: Patch, dropped: set<string>)
    ensures forall r, n ::
      var secret := r in catalog && n in catalog[r] && catalog[r][n].secret;
      var unset := r in p.unsetParams && n in p.unsetParams[r] && secret;
      Get(SecretsAfter(stored, catalog, p, dropped), r, n) ==
        if r in dropped then Unset
        else if r in p.secrets && n in p.secrets[r] then Set(p.secrets[r][n])
        else if unset then Unset
        else Get(stored, r, n)
  {
    hide Commit.Clean, WithoutUnset, Overlay, UnsetsSecret;
    forall r, n { SecretLands(stored, catalog, p, dropped, r, n); }
  }

  lemma CleanGet(s: Secrets, r: string, n: string)
    ensures Get(Commit.Clean(s), r, n) == Get(s, r, n)
  {
  }

  lemma OverlayGet(a: Secrets, b: Secrets, r: string, n: string)
    ensures Get(Overlay(a, b), r, n) == if r in b && n in b[r] then Set(b[r][n]) else Get(a, r, n)
  {
  }

  lemma WithoutUnsetGet(s: Secrets, catalog: Catalog, p: Patch, r: string, n: string)
    ensures Get(WithoutUnset(s, catalog, p), r, n) ==
      if r in p.unsetParams && n in p.unsetParams[r] && IsSecret(catalog, r, n) then Unset else Get(s, r, n)
  {
  }

  lemma SecretLands(stored: Secrets, catalog: Catalog, p: Patch, dropped: set<string>, r: string, n: string)
    ensures
      var secret := r in catalog && n in catalog[r] && catalog[r][n].secret;
      var unset := r in p.unsetParams && n in p.unsetParams[r] && secret;
      Get(SecretsAfter(stored, catalog, p, dropped), r, n) ==
        if r in dropped then Unset
        else if r in p.secrets && n in p.secrets[r] then Set(p.secrets[r][n])
        else if unset then Unset
        else Get(stored, r, n)
  {
    hide Commit.Clean, WithoutUnset, Overlay;
    var base := WithoutUnset(stored, catalog, p);
    WithoutUnsetGet(stored, catalog, p, r, n);
    OverlayGet(base, p.secrets, r, n);
    CleanGet(Overlay(base, p.secrets) - dropped, r, n);
    CleanGet(stored - dropped, r, n);
  }

  // ---- what an update lets in ------------------------------------------------------

  /** Every stored parameter is declared, no secret, and a value its declaration
      accepts; every stored secret is declared one and not empty. */
  ghost predicate Typed(params: Params, secrets: Secrets, catalog: Catalog) {
    && (forall r, n | Get(params, r, n).Set? ::
          r in catalog && n in catalog[r] && !catalog[r][n].secret && catalog[r][n].accepts(Get(params, r, n).value))
    && (forall r, n | Get(secrets, r, n).Set? ::
          r in catalog && n in catalog[r] && catalog[r][n].secret && Get(secrets, r, n).value != "")
  }

  /** Every update keeps that. */
  lemma UpdateKeepsTyped(vm: Record, secrets: Secrets, catalog: Catalog, p: Patch, vm': Record, secrets': Secrets)
    requires Typed(vm.params, secrets, catalog) && PatchValid(vm, catalog, p)
    requires Updated(vm, secrets, catalog, p, vm', secrets')
    ensures Typed(vm'.params, secrets', catalog)
  {
    hide SecretsAfter, Patched, Edited, Updated;
    ParamsLand(vm, secrets, catalog, p, vm', secrets');
    SecretsLand(secrets, catalog, p, Dropped(vm.recipes, p));
    SecretsOf(vm, secrets, catalog, p, vm', secrets');
  }

  lemma SecretsOf(vm: Record, secrets: Secrets, catalog: Catalog, p: Patch, vm': Record, secrets': Secrets)
    requires Updated(vm, secrets, catalog, p, vm', secrets')
    ensures secrets' == SecretsAfter(secrets, catalog, p, Dropped(vm.recipes, p))
  {
  }

  /** One edit is let in exactly when its recipe is one of the VM's and has the
      parameter: a secret to be given, another to be set, and either to be unset. */
  lemma OneEditExact(recipes: seq<string>, catalog: Catalog, r: string, n: string, v: string)
    ensures
      var declared := r in recipes && r in catalog && n in catalog[r];
      && (EditsValid(recipes, catalog, NO_PATCH.(setParams := map[r := map[n := v]])) <==>
            declared && !catalog[r][n].secret && catalog[r][n].accepts(v))
      && (EditsValid(recipes, catalog, NO_PATCH.(unsetParams := map[r := {n}])) <==> declared)
      && (EditsValid(recipes, catalog, NO_PATCH.(secrets := map[r := map[n := v]])) <==>
            declared && catalog[r][n].secret && v != "")
  {
    var s, u, g := map[r := map[n := v]], map[r := {n}], map[r := map[n := v]];
    assert n in s[r] && n in u[r] && n in g[r];
  }

  /** The bounds of the numbers; a patch of nothing is let in. */
  lemma NumbersExact(vm: Record, catalog: Catalog, k: int)
    ensures PatchValid(vm, catalog, NO_PATCH)
    ensures PatchValid(vm, catalog, NO_PATCH.(ram := Some(k))) <==> k >= 256
    ensures PatchValid(vm, catalog, NO_PATCH.(cpus := Some(k))) <==> k >= 1
  {
  }

  /** A patch is let in exactly when each of its edits is. */
  lemma EditsOneByOne(recipes: seq<string>, catalog: Catalog, p: Patch)
    requires forall r | r in p.setParams :: p.setParams[r] != map[]
    requires forall r | r in p.unsetParams :: p.unsetParams[r] != {}
    requires forall r | r in p.secrets :: p.secrets[r] != map[]
    ensures EditsValid(recipes, catalog, p) <==>
      && (forall r, n | r in p.setParams && n in p.setParams[r] ::
            EditsValid(recipes, catalog, NO_PATCH.(setParams := map[r := map[n := p.setParams[r][n]]])))
      && (forall r, n | r in p.unsetParams && n in p.unsetParams[r] :: UnsetValid(recipes, catalog, r, n))
      && (forall r, n | r in p.secrets && n in p.secrets[r] ::
            EditsValid(recipes, catalog, NO_PATCH.(secrets := map[r := map[n := p.secrets[r][n]]])))
  {
    ThreeKinds(recipes, catalog, p);
    SetOneByOne(recipes, catalog, p.setParams);
    UnsetOneByOne(recipes, catalog, p.unsetParams);
    GiveOneByOne(recipes, catalog, p.secrets);
    hide EditsValid;
  }

  lemma ThreeKinds(recipes: seq<string>, catalog: Catalog, p: Patch)
    ensures EditsValid(recipes, catalog, p) <==>
      && EditsValid(recipes, catalog, NO_PATCH.(setParams := p.setParams))
      && EditsValid(recipes, catalog, NO_PATCH.(unsetParams := p.unsetParams))
      && EditsValid(recipes, catalog, NO_PATCH.(secrets := p.secrets))
  {
  }

  lemma SetOneByOne(recipes: seq<string>, catalog: Catalog, edits: Params)
    requires forall r | r in edits :: edits[r] != map[]
    ensures EditsValid(recipes, catalog, NO_PATCH.(setParams := edits)) <==>
      forall r, n | r in edits && n in edits[r] ::
        EditsValid(recipes, catalog, NO_PATCH.(setParams := map[r := map[n := edits[r][n]]]))
  {
    forall r, n | r in edits && n in edits[r]
      ensures EditsValid(recipes, catalog, NO_PATCH.(setParams := map[r := map[n := edits[r][n]]])) <==>
        r in recipes && r in catalog && n in catalog[r] && !catalog[r][n].secret && catalog[r][n].accepts(edits[r][n])
    {
      OneEditExact(recipes, catalog, r, n, edits[r][n]);
    }
    SetEach(recipes, catalog, edits);
    hide EditsValid;
  }

  lemma SetEach(recipes: seq<string>, catalog: Catalog, edits: Params)
    requires forall r | r in edits :: edits[r] != map[]
    ensures EditsValid(recipes, catalog, NO_PATCH.(setParams := edits)) <==>
      forall r, n | r in edits && n in edits[r] ::
        r in recipes && r in catalog && n in catalog[r] && !catalog[r][n].secret && catalog[r][n].accepts(edits[r][n])
  {
    forall r | r in edits ensures exists n :: n in edits[r] { var n :| n in edits[r]; }
  }

  predicate UnsetValid(recipes: seq<string>, catalog: Catalog, r: string, n: string) {
    EditsValid(recipes, catalog, NO_PATCH.(unsetParams := map[r := {n}]))
  }

  lemma UnsetOneByOne(recipes: seq<string>, catalog: Catalog, edits: map<string, set<string>>)
    requires forall r | r in edits :: edits[r] != {}
    ensures EditsValid(recipes, catalog, NO_PATCH.(unsetParams := edits)) <==>
      forall r, n | r in edits && n in edits[r] :: UnsetValid(recipes, catalog, r, n)
  {
    forall r, n ensures UnsetValid(recipes, catalog, r, n) <==> r in recipes && r in catalog && n in catalog[r] {
      OneEditExact(recipes, catalog, r, n, "");
    }
    UnsetEach(recipes, catalog, edits);
    hide EditsValid, UnsetValid;
  }

  ghost predicate AllDeclared(recipes: seq<string>, catalog: Catalog, edits: map<string, set<string>>) {
    forall r, n | r in edits && n in edits[r] :: r in recipes && r in catalog && n in catalog[r]
  }

  lemma UnsetEach(recipes: seq<string>, catalog: Catalog, edits: map<string, set<string>>)
    requires forall r | r in edits :: edits[r] != {}
    ensures EditsValid(recipes, catalog, NO_PATCH.(unsetParams := edits)) <==> AllDeclared(recipes, catalog, edits)
  {
    if AllDeclared(recipes, catalog, edits) {
      forall r | r in edits ensures r in recipes && r in catalog {
        var n :| n in edits[r];
      }
    }
  }

  lemma GiveOneByOne(recipes: seq<string>, catalog: Catalog, edits: Secrets)
    requires forall r | r in edits :: edits[r] != map[]
    ensures EditsValid(recipes, catalog, NO_PATCH.(secrets := edits)) <==>
      forall r, n | r in edits && n in edits[r] ::
        EditsValid(recipes, catalog, NO_PATCH.(secrets := map[r := map[n := edits[r][n]]]))
  {
    forall r, n | r in edits && n in edits[r]
      ensures EditsValid(recipes, catalog, NO_PATCH.(secrets := map[r := map[n := edits[r][n]]])) <==>
        r in recipes && r in catalog && n in catalog[r] && catalog[r][n].secret && edits[r][n] != ""
    {
      OneEditExact(recipes, catalog, r, n, edits[r][n]);
    }
    GiveEach(recipes, catalog, edits);
    hide EditsValid;
  }

  lemma GiveEach(recipes: seq<string>, catalog: Catalog, edits: Secrets)
    requires forall r | r in edits :: edits[r] != map[]
    ensures EditsValid(recipes, catalog, NO_PATCH.(secrets := edits)) <==>
      forall r, n | r in edits && n in edits[r] ::
        r in recipes && r in catalog && n in catalog[r] && catalog[r][n].secret && edits[r][n] != ""
  {
    forall r | r in edits ensures exists n :: n in edits[r] { var n :| n in edits[r]; }
  }

  // ---- a reconcile ----------------------------------------------------------------

  /** The mount points and paths stay clear of the characters the text is made of. */
  predicate CleanShares(ss: seq<Share>) {
    forall i | 0 <= i < |ss| :: Without(ss[i].guest, '=') && Without(ss[i].guest, ',') && Without(ss[i].host, ',')
  }

  /** The same mount points with the same paths, in order; tags do not count. */
  predicate SameShares(a: seq<Share>, b: seq<Share>) {
    |a| == |b| && forall i | 0 <= i < |a| :: a[i].guest == b[i].guest && a[i].host == b[i].host
  }

  lemma ShareParts(ss: seq<Share>) returns (parts: seq<string>)
    ensures |parts| == |ss| && RenderShares(ss) == Join(parts, ",")
    ensures forall i | 0 <= i < |ss| :: parts[i] == ss[i].guest + ['='] + ss[i].host
    ensures CleanShares(ss) ==> Listable(parts)
  {
    hide Join;
    parts := seq(|ss|, i requires 0 <= i < |ss| => SharePart(ss[i]));
    assert forall i | 0 <= i < |ss| :: parts[i] == ss[i].guest + ['='] + ss[i].host;
    if CleanShares(ss) {
      forall i | 0 <= i < |parts| ensures parts[i] != "" && Without(parts[i], ',') {}
    }
  }

  lemma SharesExact(a: seq<Share>, b: seq<Share>)
    requires CleanShares(a) && CleanShares(b)
    ensures RenderShares(a) == RenderShares(b) <==> SameShares(a, b)
  {
    hide Join, RenderShares, Listable;
    var p := ShareParts(a);
    var q := ShareParts(b);
    if SameShares(a, b) { assert p == q; }
    if RenderShares(a) == RenderShares(b) {
      JoinInjective(p, q);
      forall i | 0 <= i < |a| ensures a[i].guest == b[i].guest && a[i].host == b[i].host {
        SplitUnique(a[i].guest, a[i].host, b[i].guest, b[i].host, '=');
      }
    }
  }

  /** Diff reports nothing exactly when record and declaration agree: cpus, ram and
      access as far as declared, the recipes, the shares and the parameters. */
  lemma NoDriftExact(vm: Record, spec: Spec)
    requires Legible(vm, spec) && CleanShares(vm.shares) && CleanShares(spec.shares)
    ensures NoDrift(vm, spec) <==>
      && (spec.cpus == 0 || vm.cpus == spec.cpus)
      && (spec.ram == 0 || vm.ram == spec.ram)
      && (spec.access == "" || vm.access == spec.access)
      && vm.recipes == spec.recipes
      && SameShares(vm.shares, spec.shares)
      && forall r, n :: Get(vm.params, r, n) == Get(spec.params, r, n)
  {
    hide Join, RenderShares, Rendered, Listable, CleanShares, SameShares, Get, CleanParams;
    RenderedExact(vm.params, spec.params);
    SharesExact(vm.shares, spec.shares);
    if Join(vm.recipes, ",") == Join(spec.recipes, ",") { JoinInjective(vm.recipes, spec.recipes); }
    AllFields(vm, spec);
  }

  lemma AllFields(vm: Record, spec: Spec)
    ensures NoDrift(vm, spec) <==>
      && !Drifts(vm, spec, Cpus) && !Drifts(vm, spec, Ram) && !Drifts(vm, spec, Recipes)
      && !Drifts(vm, spec, Shares) && !Drifts(vm, spec, Parameters) && !Drifts(vm, spec, Access)
  {
    hide Drifts;
    if !NoDrift(vm, spec) {
      var f :| Drifts(vm, spec, f);
      match f
      case Cpus =>
      case Ram =>
      case Recipes =>
      case Shares =>
      case Parameters =>
      case Access =>
    }
  }

  /** After a successful Reconcile the declared cpus, ram and access are the VM's, and
      so are the shares; whatever is not declared is as it was. */
  lemma ReconcileLands(vm: Record, secrets: Secrets, catalog: Catalog, spec: Spec, vm': Record, secrets': Secrets)
    requires Reconciled(vm, secrets, catalog, spec, vm', secrets')
    ensures vm'.frozen == vm.frozen
    ensures vm'.cpus == (if spec.cpus == 0 then vm.cpus else spec.cpus)
    ensures vm'.ram == (if spec.ram == 0 then vm.ram else spec.ram)
    ensures vm'.access == (if spec.access == "" then vm.access else spec.access)
    ensures vm'.allowExec ==
      (if spec.access == "" || spec.access == vm.access then vm.allowExec else spec.access == "exec")
    ensures CleanShares(vm.shares) && CleanShares(spec.shares) ==> SameShares(vm'.shares, spec.shares)
    ensures vm'.shares == vm.shares || vm'.shares == spec.shares
  {
    hide Join, RenderShares, Rendered, CleanShares, SameShares, Removed, Filtered, SecretsAfter, Edited, Get;
    if CleanShares(vm.shares) && CleanShares(spec.shares) {
      SharesExact(vm.shares, spec.shares);
      SharesExact(spec.shares, spec.shares);
    }
    AllFields(vm, spec);
  }

  /** Every declared secret of a declared recipe is stored with its declared value. */
  lemma DeclaredSecretsLand(vm: Record, secrets: Secrets, catalog: Catalog, spec: Spec, vm': Record, secrets': Secrets)
    requires Reconciled(vm, secrets, catalog, spec, vm', secrets')
    ensures forall r, n | r in spec.recipes && r in spec.secrets && n in spec.secrets[r] ::
      r in secrets' && n in secrets'[r] && secrets'[r][n] == spec.secrets[r][n]
  {
    hide Drifts, Rendered, Removed, SecretsAfter, Edited;
    var p := ReconcilePatch(vm, spec);
    SecretsLand(secrets, catalog, p, Dropped(vm.recipes, p));
    forall r, n | r in spec.recipes && r in spec.secrets && n in spec.secrets[r]
      ensures r in secrets' && n in secrets'[r] && secrets'[r][n] == spec.secrets[r][n]
    {
      if !Idle(vm, secrets, spec) { assert Get(secrets', r, n) == Set(spec.secrets[r][n]); }
    }
  }
}
