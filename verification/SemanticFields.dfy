/** Chasing field aliases, so that an alias of a semantic_text field is not taken for an ordinary one. */
module SemanticFields {
  import opened Common
  import opened Glob
  import opened FieldMatches

  /** A mapping entry: an alias (with its path, when that is a string), or a concrete field. */
  datatype Field = Alias(path: Option<Text>) | Concrete(semantic: bool)

  type Mapping = map<Text, Field>

  /** f leads to the concrete field g over n aliases. */
  ghost predicate LeadsTo(fields: Mapping, f: Field, g: Field, n: nat)
    decreases n
  {
    if n == 0 then f == g && g.Concrete?
    else f.Alias? && f.path.Some? && f.path.value in fields && LeadsTo(fields, fields[f.path.value], g, n - 1)
  }

  ghost predicate Resolves(fields: Mapping, f: Field, g: Field) { exists n: nat :: LeadsTo(fields, f, g, n) }

  /** The chain of f breaks off or runs in a cycle. */
  ghost predicate Dangling(fields: Mapping, f: Field) { forall g :: !Resolves(fields, f, g) }

  /** f reaches f' over d aliases. */
  ghost predicate Reaches(fields: Mapping, f: Field, f': Field, d: nat)
    decreases d
  {
    if d == 0 then f == f'
    else f.Alias? && f.path.Some? && f.path.value in fields && Reaches(fields, fields[f.path.value], f', d - 1)
  }

  lemma {:induction false} LengthUnique(fields: Mapping, f: Field, g: Field, g': Field, n: nat, m: nat)
    requires LeadsTo(fields, f, g, n) && LeadsTo(fields, f, g', m)
    ensures n == m && g == g'
    decreases n
  {
    if n > 0 && m > 0 { LengthUnique(fields, fields[f.path.value], g, g', n - 1, m - 1); }
  }

  lemma {:induction false} SkipAhead(fields: Mapping, f: Field, f': Field, g: Field, d: nat, n: nat)
    requires Reaches(fields, f, f', d) && LeadsTo(fields, f, g, n)
    ensures d <= n && LeadsTo(fields, f', g, n - d)
    decreases d
  {
    if d > 0 { SkipAhead(fields, fields[f.path.value], f', g, d - 1, n - 1); }
  }

  /** A field on a cycle of aliases leads nowhere. */
  lemma CycleLeadsNowhere(fields: Mapping, f: Field, d: nat)
    requires d > 0 && Reaches(fields, f, f, d)
    ensures Dangling(fields, f)
  {
    forall g, n: nat | LeadsTo(fields, f, g, n) ensures false {
      SkipAhead(fields, f, f, g, d, n);
      LengthUnique(fields, f, g, g, n, n - d);
    }
  }

  lemma {:induction false} ReachFurther(fields: Mapping, f: Field, f': Field, d: nat)
    requires Reaches(fields, f, f', d) && f'.Alias? && f'.path.Some? && f'.path.value in fields
    ensures Reaches(fields, f, fields[f'.path.value], d + 1)
    decreases d
  {
    if d > 0 { ReachFurther(fields, fields[f.path.value], f', d - 1); }
  }

  /** The state of the chase: `hops` aliases behind it, each path left at the recorded hop. */
  ghost predicate Chasing(fields: Mapping, start: Field, field: Field, left: map<Text, nat>, hops: nat) {
    && left.Keys <= fields.Keys
    && Reaches(fields, start, field, hops)
    && (forall path :: path in left ==> left[path] < hops && Reaches(fields, fields[path], field, hops - 1 - left[path]))
  }

  lemma FollowAlias(fields: Mapping, start: Field, field: Field, left: map<Text, nat>, hops: nat)
    requires Chasing(fields, start, field, left, hops)
    requires field.Alias? && field.path.Some? && field.path.value in fields
    ensures Chasing(fields, start, fields[field.path.value], left[field.path.value := hops], hops + 1)
  {
    var path := field.path.value;
    ReachFurther(fields, start, field, hops);
    forall p | p in left ensures Reaches(fields, fields[p], fields[path], hops - left[p]) {
      ReachFurther(fields, fields[p], field, hops - 1 - left[p]);
    }
  }

  lemma SeenMeansCycle(fields: Mapping, start: Field, field: Field, left: map<Text, nat>, hops: nat)
    requires Chasing(fields, start, field, left, hops)
    requires field.Alias? && field.path.Some? && field.path.value in left
    ensures Dangling(fields, start)
  {
    var path := field.path.value;
    ReachFurther(fields, fields[path], field, hops - 1 - left[path]);
    CycleLeadsNowhere(fields, fields[path], hops - left[path]);
    forall g, n: nat | LeadsTo(fields, start, g, n) ensures false {
      SkipAhead(fields, start, field, g, hops, n);
      LeadOn(fields, field, g);
    }
  }

  lemma DeadEnd(fields: Mapping, start: Field, field: Field, left: map<Text, nat>, hops: nat)
    requires Chasing(fields, start, field, left, hops)
    requires field.Alias? && (field.path.None? || field.path.value !in fields)
    ensures Dangling(fields, start)
  {
    forall g, n: nat | LeadsTo(fields, start, g, n) ensures false {
      SkipAhead(fields, start, field, g, hops, n);
    }
  }

  /** The inner loop: follow aliases from one field to a concrete one; a repeated path is a cycle. */
  method Chase(fields: Mapping, start: Field) returns (r: Option<Field>)
    ensures r.Some? ==> r.value.Concrete? && Resolves(fields, start, r.value)
    ensures r.None? ==> Dangling(fields, start)
  {
    var field := start;
    var seen: set<Text> := {};
    ghost var hops: nat := 0;
    ghost var left: map<Text, nat> := map[];
    while field.Alias?
      invariant left.Keys == seen && Chasing(fields, start, field, left, hops)
      decreases fields.Keys - seen
    {
      if field.path.None? {
        DeadEnd(fields, start, field, left, hops);
        return None;
      }
      var path := field.path.value;
      if path in seen {
        SeenMeansCycle(fields, start, field, left, hops);
        return None;
      }
      if path !in fields {
        DeadEnd(fields, start, field, left, hops);
        return None;
      }
      FollowAlias(fields, start, field, left, hops);
      assert path in fields.Keys - seen;
      seen := seen + {path};
      left, hops := left[path := hops], hops + 1;
      field := fields[path];
    }
    ReachThenLead(fields, start, field, hops);
    assert Resolves(fields, start, field);
    return Some(field);
  }

  lemma LeadOn(fields: Mapping, f: Field, g: Field)
    requires f.Alias? && f.path.Some? && f.path.value in fields
    ensures Resolves(fields, f, g) <==> Resolves(fields, fields[f.path.value], g)
  {
    if n: nat :| LeadsTo(fields, f, g, n) { assert LeadsTo(fields, fields[f.path.value], g, n - 1); }
    if n: nat :| LeadsTo(fields, fields[f.path.value], g, n) { assert LeadsTo(fields, f, g, n + 1); }
  }

  lemma {:induction false} ReachThenLead(fields: Mapping, f: Field, g: Field, d: nat)
    requires Reaches(fields, f, g, d) && g.Concrete?
    ensures LeadsTo(fields, f, g, d)
    decreases d
  {
    if d > 0 { ReachThenLead(fields, fields[f.path.value], g, d - 1); }
  }

  /** A name is harmless when its alias chain ends in a field, and in a semantic one only if no selector covers the name. */
  ghost predicate Harmless(fields: Mapping, patterns: seq<Text>, name: Text)
    requires name in fields
  {
    exists g :: Resolves(fields, fields[name], g) && g.Concrete?
                && (g.semantic ==> forall i :: 0 <= i < |patterns| ==> !Match(patterns[i], name))
  }

  /** What the loop over the selectors looks for with its matcher. */
  ghost predicate Passes(fields: Mapping, patterns: seq<Text>, name: Text)
    requires name in fields
  {
    exists g :: Resolves(fields, fields[name], g) && g.Concrete?
                && (g.semantic ==> forall i :: 0 <= i < |patterns| ==> !GreedyMatch(patterns[i], name))
  }

  /** No harmless name is refused, and no other name passes unless it has a star. */
  lemma PassesIffHarmless(fields: Mapping, patterns: seq<Text>, name: Text)
    requires name in fields
    ensures Harmless(fields, patterns, name) ==> Passes(fields, patterns, name)
    ensures STAR !in name ==> (Passes(fields, patterns, name) <==> Harmless(fields, patterns, name))
  {
    hide Resolves, Match, GreedyMatch;
    forall i | 0 <= i < |patterns| && GreedyMatch(patterns[i], name) ensures Match(patterns[i], name) {
      AcceptedMatches(patterns[i], name);
    }
    ExactIffNoStar(name);
  }

  lemma ResolvesItself(fields: Mapping, g: Field)
    requires g.Concrete?
    ensures Resolves(fields, g, g)
  {
    assert LeadsTo(fields, g, g, 0);
  }

  /** The selectors are decided correctly on the name of a semantic field if and only if the name has no star. */
  lemma SelectorsExactIffNoStar(fields: Mapping, name: Text, g: Field)
    requires name in fields && Resolves(fields, fields[name], g) && g.Concrete? && g.semantic
    ensures (forall patterns: seq<Text> :: Passes(fields, patterns, name) ==> Harmless(fields, patterns, name)) <==> STAR !in name
  {
    hide Resolves, Match, GreedyMatch;
    if STAR in name {
      var k :| 0 <= k < |name| && name[k] == STAR;
      StarInNameMisleads(name, k);
      ResolvesUnique(fields, fields[name], g);
      var patterns := [Swallowed(name, k)];
      assert patterns[0] == Swallowed(name, k);
      assert Passes(fields, patterns, name) && !Harmless(fields, patterns, name);
    } else {
      forall patterns: seq<Text> | Passes(fields, patterns, name) ensures Harmless(fields, patterns, name) {
        PassesIffHarmless(fields, patterns, name);
      }
    }
  }

  /** A mapping with one semantic field whose name has a star, and a selector that covers it and is let through. */
  lemma StarredFieldSlips(name: Text, k: nat)
    requires k < |name| && name[k] == STAR
    ensures var fields := map[name := Concrete(true)]; var patterns := [Swallowed(name, k)];
            Match(patterns[0], name) && Passes(fields, patterns, name) && !Harmless(fields, patterns, name)
  {
    hide Match, GreedyMatch, Swallowed, Resolves;
    var fields := map[name := Concrete(true)];
    StarInNameMisleads(name, k);
    ResolvesItself(fields, Concrete(true));
    ResolvesUnique(fields, Concrete(true), Concrete(true));
    assert [Swallowed(name, k)][0] == Swallowed(name, k);
  }

  /** Success means that every name passes and that those without a star, aliases included, are harmless; a refusal means
      that some name does not pass, and deserves it. */
  method SemanticMappingFields(proof: QueryProof, fields: Mapping, patterns: seq<Text>) returns (r: Result<()>)
    modifies proof
    ensures r.Ok? ==> forall name :: name in fields ==> Passes(fields, patterns, name)
    ensures r.Ok? ==> forall name :: name in fields && STAR !in name ==> Harmless(fields, patterns, name)
    ensures r.Err? && r.code != "capability_unavailable" ==> proof.Spent(r.code)
    ensures r == Err("capability_unavailable") ==> exists name :: name in fields && !Passes(fields, patterns, name) && !Harmless(fields, patterns, name)
  {
    var names := fields.Keys;
    while names != {}
      invariant names <= fields.Keys
      invariant forall name :: name in fields && name !in names ==> Passes(fields, patterns, name)
      decreases |names|
    {
      var name := Choose(names);
      names := names - {name};
      var field := Chase(fields, fields[name]);
      if field.None? {
        assert !Passes(fields, patterns, name) && !Harmless(fields, patterns, name);
        return Err("capability_unavailable");
      }
      if field.value.semantic {
        for i := 0 to |patterns|
          invariant forall k :: 0 <= k < i ==> !GreedyMatch(patterns[k], name)
        {
          var step := proof.Step();
          if step.Err? { return Err(step.code); }
          var matches := proof.FieldMatches(patterns[i], name);
          if matches.Err? { return Err(matches.code); }
          if matches.value {
            ResolvesUnique(fields, fields[name], field.value);
            assert !Passes(fields, patterns, name) && !Harmless(fields, patterns, name);
            return Err("capability_unavailable");
          }
        }
      }
      assert Passes(fields, patterns, name);
    }
    forall name | name in fields && STAR !in name ensures Harmless(fields, patterns, name) {
      PassesIffHarmless(fields, patterns, name);
    }
    return Ok(());
  }

  lemma ResolvesUnique(fields: Mapping, f: Field, g: Field)
    requires Resolves(fields, f, g)
    ensures forall g' :: Resolves(fields, f, g') ==> g' == g
  {
    var n: nat :| LeadsTo(fields, f, g, n);
    forall g', m: nat | LeadsTo(fields, f, g', m) ensures g' == g { LengthUnique(fields, f, g, g', n, m); }
  }
}
