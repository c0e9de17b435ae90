/** What "already applied" means: the decision of internal/core/apply.go in terms
    of what internal/recipes/params.go digests. */
module AlreadyApplied {
  import opened Recipes
  import opened Planner
  import opened RecipeHash

  /** What a recipe runs with on a VM. */
  datatype Content = Content(body: string, params: map<string, string>, secretNames: seq<string>)

  /** A digest without collisions. */
  ghost predicate Faithful(digest: string -> string) {
    (forall s, t | digest(s) == digest(t) :: s == t) && forall s :: digest(s) != ""
  }

  ghost function HashOfContent(digest: string -> string, c: Content): string {
    digest(Preimage(c.body, c.params, c.secretNames))
  }

  ghost predicate Same(c: Content, d: Content) {
    c.body == d.body && c.params == d.params && multiset(c.secretNames) == multiset(d.secretNames)
  }

  ghost predicate Clean(c: Content) { WellNamed(c.body, c.params, c.secretNames) }

  /** A "once" recipe that ran with the content `was` and has the content `now` is
      left alone exactly when nothing the hash covers has changed; otherwise the
      reason given tells whether it was the script. */
  lemma {:induction false} AlreadyAppliedExact(inp: Inputs, applied: map<string, Applied>, explicit: set<string>,
                                               n: string, digest: string -> string, was: Content, now: Content)
    requires n in inp.snapshot && inp.snapshot[n].run == Once && n in applied
    requires Faithful(digest) && Clean(was) && Clean(now)
    requires applied[n] == Applied(HashOfContent(digest, was), digest(was.body))
    requires HashOf(inp.hashes, n) == Hash(HashOfContent(digest, now))
    requires HashOf(inp.scriptHashes, n) == Hash(digest(now.body))
    ensures
      var d := Decide(inp, applied, explicit, n);
      && d.run == !Same(was, now)
      && (d.reason == AlreadyApplied <==> Same(was, now))
      && (d.reason == ParamsChanged <==> was.body == now.body && !Same(was, now))
      && (d.reason == ScriptChanged <==> was.body != now.body)
  {
    hide Preimage, WellNamed;
    PreimageExact(was.body, was.params, was.secretNames, now.body, now.params, now.secretNames);
  }
}
