/** Retention policies: merging them, and rendering the merged rule in the language of the version filter. */
module Retention {
  import opened Wrappers
  import opened Decimal
  import opened Schema
  import opened VersionQuery
  import opened FilterParams

  /** A rule, and the two columns of a stored policy. */
  datatype Policy = Policy(keepLast: Option<int>, maxAgeDays: Option<int>) {
    /** The CHECKs of migration 000010, in INT columns. */
    predicate Stored() {
      && (keepLast.Some? ==> 1 <= keepLast.value <= MAX_INT32)
      && (maxAgeDays.Some? ==> 1 <= maxAgeDays.value <= MAX_INT32)
      && (keepLast.Some? || maxAgeDays.Some?)
    }
  }

  /** The largest of the values that are set, or None when none is. */
  ghost predicate IsLargest(o: Option<int>, values: set<Option<int>>) {
    && (o.Some? ==> o in values)
    && (forall v :: v in values && v.Some? ==> o.Some? && v.value <= o.value)
  }

  ghost function KeepLasts(policies: seq<Policy>): set<Option<int>> {
    set p | p in policies :: p.keepLast
  }

  ghost function MaxAges(policies: seq<Policy>): set<Option<int>> {
    set p | p in policies :: p.maxAgeDays
  }

  ghost predicate Merges(rule: Policy, policies: seq<Policy>) {
    IsLargest(rule.keepLast, KeepLasts(policies)) && IsLargest(rule.maxAgeDays, MaxAges(policies))
  }

  method MergeRetention(policies: seq<Policy>) returns (merged: Option<Policy>)
    ensures merged.None? <==> policies == []
    ensures merged.Some? ==> Merges(merged.value, policies)
  {
    if |policies| == 0 {
      return None;
    }
    var rule := Policy(None, None);
    for i := 0 to |policies|
      invariant Merges(rule, policies[..i])
    {
      var p := policies[i];
      OneMorePolicy(policies[..i], p);
      assert policies[..i + 1] == policies[..i] + [p];
      if p.keepLast.Some? && (rule.keepLast.None? || p.keepLast.value > rule.keepLast.value) {
        rule := rule.(keepLast := p.keepLast);
      }
      if p.maxAgeDays.Some? && (rule.maxAgeDays.None? || p.maxAgeDays.value > rule.maxAgeDays.value) {
        rule := rule.(maxAgeDays := p.maxAgeDays);
      }
    }
    assert policies[..|policies|] == policies;
    merged := Some(rule);
  }

  lemma OneMorePolicy(policies: seq<Policy>, p: Policy)
    ensures KeepLasts(policies + [p]) == KeepLasts(policies) + {p.keepLast}
    ensures MaxAges(policies + [p]) == MaxAges(policies) + {p.maxAgeDays}
  {
  }

  /** The merged rule does not depend on the order, or the repetition, of the policies. */
  lemma MergeIgnoresOrder(policies: seq<Policy>, others: seq<Policy>, rule: Policy, other: Policy)
    requires forall p :: p in policies <==> p in others
    requires Merges(rule, policies) && Merges(other, others)
    ensures rule == other
  {
    assert KeepLasts(policies) == KeepLasts(others);
    assert MaxAges(policies) == MaxAges(others);
  }

  const DAY := 86_400
  const NANOS := 1_000_000_000

  /** now.UTC().AddDate(0, 0, -days).Truncate(time.Second), in seconds; `now` is in nanoseconds. */
  function Cutoff(now: int, days: int): int {
    (now - days * DAY * NANOS) / NANOS
  }

  /** The cutoff is whole days of 86400 seconds before the second that `now` is in; a day before 2026-01-01T00:00:00Z is 2025-12-31T00:00:00Z. */
  lemma CutoffIsWholeDaysBack(now: int, days: int)
    ensures Cutoff(now, days) == now / 1_000_000_000 - 86_400 * days
    ensures Cutoff(1_767_225_600_000_000_000, 1) == 1_767_139_200
  {
  }

  /** versionFilter: the rule as query parameters; no rule is the empty query. */
  function VersionFilter(rule: Option<Policy>, now: int): Query
    requires rule.Some? && rule.value.keepLast.Some? ==> rule.value.keepLast.value >= 0
  {
    match rule
    case None => NO_PARAMS
    case Some(r) => NO_PARAMS.(
      keepLast := if r.keepLast.Some? then Itoa(r.keepLast.value) else "",
      olderThan := if r.maxAgeDays.Some? then Some(Cutoff(now, r.maxAgeDays.value)) else None)
  }

  /** The filter a rule stands for. */
  function FilterOf(rule: Policy, now: int): Filter {
    NO_FILTER.(
      keepLast := rule.keepLast,
      olderThan := if rule.maxAgeDays.Some? then Some(Cutoff(now, rule.maxAgeDays.value)) else None)
  }

  /** The bulk delete accepts a stored rule's text exactly when RFC 3339 can write the cutoff, and then reads back the rule. */
  lemma RenderedRuleReadsBack(rule: Policy, now: int, perArtifact: bool)
    requires rule.Stored()
    ensures var parsed := Meaning(VersionFilter(Some(rule), now), perArtifact);
            && (parsed.Ok? <==> rule.maxAgeDays.Some? ==> InRfc3339(Cutoff(now, rule.maxAgeDays.value)))
            && (parsed.Ok? ==> parsed.value == FilterOf(rule, now) && parsed.value.AnySet())
  {
    if rule.keepLast.Some? {
      NarrowingKeepsSmallNumbers(rule.keepLast.value, 1);
    }
  }

  /** A maximum age of 2025 years before 2026 is before year 0: the rendered filter is then refused. */
  lemma VeryOldCutoffIsRefused(keepLast: Option<int>)
    requires keepLast.Some? ==> 1 <= keepLast.value <= MAX_INT32
    ensures var year2026 := 1_767_225_600;
            Meaning(VersionFilter(Some(Policy(keepLast, Some(750_000))), year2026 * NANOS), true) == Err
  {
    CutoffIsWholeDaysBack(1_767_225_600 * NANOS, 750_000);
  }

  /** A rule deletes only what every policy would: its selection is the intersection of theirs. */
  lemma MergedRuleSelectsTheIntersection(t: Tables, bytes: map<Id, int>, policies: seq<Policy>, rule: Policy, now: int, v: Id, rn: nat)
    requires policies != [] && Merges(rule, policies) && v in t.versions && bytes.Keys == t.versions.Keys
    ensures Selects(t, bytes, FilterOf(rule, now), v, rn) <==> forall p :: p in policies ==> Selects(t, bytes, FilterOf(p, now), v, rn)
  {
    forall p | p in policies ensures p.keepLast in KeepLasts(policies) && p.maxAgeDays in MaxAges(policies) {}
    forall p | p in policies && p.maxAgeDays.Some?
      ensures Cutoff(now, rule.maxAgeDays.value) <= Cutoff(now, p.maxAgeDays.value)
    {
      CutoffIsWholeDaysBack(now, p.maxAgeDays.value);
      CutoffIsWholeDaysBack(now, rule.maxAgeDays.value);
    }
  }

  lemma MergedRuleIsStored(policies: seq<Policy>, rule: Policy)
    requires policies != [] && Merges(rule, policies) && forall p :: p in policies ==> p.Stored()
    ensures rule.Stored()
  {
    assert policies[0] in policies;
    assert policies[0].keepLast in KeepLasts(policies) && policies[0].maxAgeDays in MaxAges(policies);
  }

  /** The version is not among the newest the policy keeps, and was created before the first second it keeps. */
  ghost predicate LetsGo(t: Tables, policy: Policy, now: int, artifact: Id, v: Id)
    requires policy.Stored() && v in t.versions
  {
    && (policy.keepLast.Some? ==> v !in Newest(t.versions, artifact, policy.keepLast.value))
    && (policy.maxAgeDays.Some? ==> t.versions[v].created < now / 1_000_000_000 - 86_400 * policy.maxAgeDays.value)
  }

  /** What a stored policy deletes: old enough versions that no tag protects and that are not among the newest it keeps. */
  lemma PolicyDeletes(t: Tables, bytes: map<Id, int>, policy: Policy, now: int, artifact: Id, protectedTag: string, v: Id)
    requires Consistent(t, bytes) && policy.Stored() && v in t.versions
    ensures v in Deletable(t, bytes, Selection(FilterOf(policy, now), Some(artifact), protectedTag, false)) <==>
            t.versions[v].artifact == artifact && Free(t, protectedTag, v) && LetsGo(t, policy, now, artifact, v)
  {
    MatchesWhen(t, bytes, Selection(FilterOf(policy, now), Some(artifact), protectedTag, true), v);
    hide Free, Matched, Greater;
    if policy.maxAgeDays.Some? {
      CutoffIsWholeDaysBack(now, policy.maxAgeDays.value);
    }
  }

  /** The merged rule, rendered, parsed and run, deletes the intersection of what the policies delete. */
  lemma MergedRuleDeletesTheIntersection(t: Tables, bytes: map<Id, int>, policies: seq<Policy>, rule: Policy, now: int, artifact: Id, protectedTag: string)
    requires Consistent(t, bytes) && policies != [] && Merges(rule, policies) && forall p :: p in policies ==> p.Stored()
    ensures rule.Stored()
    ensures var parsed := Meaning(VersionFilter(Some(rule), now), true);
            && (parsed.Ok? <==> rule.maxAgeDays.Some? ==> InRfc3339(Cutoff(now, rule.maxAgeDays.value)))
            && (parsed.Ok? ==> parsed.value.AnySet() && forall v :: v in t.versions ==>
                  (v in Deletable(t, bytes, Selection(parsed.value, Some(artifact), protectedTag, false)) <==>
                     forall p :: p in policies ==> v in Deletable(t, bytes, Selection(FilterOf(p, now), Some(artifact), protectedTag, false))))
  {
    MergedRuleIsStored(policies, rule);
    RenderedRuleReadsBack(rule, now, true);
    hide Selects, RowNumber, Tables.Protected, Merges, Policy.Stored;
    assert policies[0] in policies;
    forall v | v in Scope(t.versions, Some(artifact)) {
      MergedRuleSelectsTheIntersection(t, bytes, policies, rule, now, v, RowNumber(t.versions, Some(artifact), v));
    }
  }

  lemma EveryPolicyDeletes(t: Tables, bytes: map<Id, int>, policies: seq<Policy>, now: int, artifact: Id, protectedTag: string, v: Id)
    requires Consistent(t, bytes) && policies != [] && v in t.versions && forall p :: p in policies ==> p.Stored()
    ensures (forall p :: p in policies ==> v in Deletable(t, bytes, Selection(FilterOf(p, now), Some(artifact), protectedTag, false))) <==>
            && t.versions[v].artifact == artifact && Free(t, protectedTag, v)
            && forall p :: p in policies ==> p.Stored() && LetsGo(t, p, now, artifact, v)
  {
    hide Free, LetsGo, Deletable, Policy.Stored;
    assert policies[0] in policies;
    forall p | p in policies {
      PolicyDeletes(t, bytes, p, now, artifact, protectedTag, v);
    }
  }

  /** From the stored policies to the versions: accepted unless the oldest cutoff is before year 0 or after year 9999, the merged rule,
      rendered, parsed and run, deletes exactly the artifact's free versions that every policy lets go, by age and by rank. */
  lemma RetentionEndToEnd(t: Tables, bytes: map<Id, int>, policies: seq<Policy>, rule: Policy, now: int, artifact: Id, protectedTag: string, v: Id)
    requires Consistent(t, bytes) && policies != [] && Merges(rule, policies) && v in t.versions && forall p :: p in policies ==> p.Stored()
    ensures rule.Stored()
    ensures var parsed := Meaning(VersionFilter(Some(rule), now), true);
            && (parsed.Ok? <==> rule.maxAgeDays.Some? ==> -62_167_219_200 <= now / 1_000_000_000 - 86_400 * rule.maxAgeDays.value <= 253_402_300_799)
            && (parsed.Ok? ==>
                  && parsed.value.AnySet()
                  && (v in Deletable(t, bytes, Selection(parsed.value, Some(artifact), protectedTag, false)) <==>
                        && t.versions[v].artifact == artifact && Free(t, protectedTag, v)
                        && forall p :: p in policies ==> p.Stored() && LetsGo(t, p, now, artifact, v)))
  {
    MergedRuleDeletesTheIntersection(t, bytes, policies, rule, now, artifact, protectedTag);
    EveryPolicyDeletes(t, bytes, policies, now, artifact, protectedTag, v);
    if rule.maxAgeDays.Some? {
      CutoffIsWholeDaysBack(now, rule.maxAgeDays.value);
    }
    hide Free, LetsGo, Deletable, Merges, Cutoff, Policy.Stored, Meaning, VersionFilter, FilterOf, Consistent, Filter.AnySet;
  }

  // ---- stored policies and the effective rule ----

  /** The policies of an artifact's types, listed in any order, have the values stored for those types. */
  lemma SameValues(policies: seq<Policy>, stored: map<Id, Policy>, typeMap: set<(Id, Id)>, a: Id)
    requires forall p :: p in policies <==> exists y :: y in stored && (a, y) in typeMap && stored[y] == p
    ensures KeepLasts(policies) == set y | y in stored && (a, y) in typeMap :: stored[y].keepLast
    ensures MaxAges(policies) == set y | y in stored && (a, y) in typeMap :: stored[y].maxAgeDays
    ensures policies != [] <==> exists y :: y in stored && (a, y) in typeMap
  {
    forall y | y in stored && (a, y) in typeMap ensures stored[y] in policies {}
    forall p | p in policies ensures exists y :: y in stored && (a, y) in typeMap && stored[y] == p {}
    if policies != [] {
      assert policies[0] in policies;
    }
  }

  datatype Source = Unset | FromArtifact | FromTypes

  class Store {
    var ofArtifact: map<Id, Policy>
    var ofType: map<Id, Policy>

    /** The CHECK constraints. */
    ghost predicate Valid()
      reads this
    {
      (forall a :: a in ofArtifact ==> ofArtifact[a].Stored()) && (forall y :: y in ofType ==> ofType[y].Stored())
    }

    constructor ()
      ensures Valid() && ofArtifact == map[] && ofType == map[]
    {
      ofArtifact, ofType := map[], map[];
    }

    /** PutForArtifact: refused without a field, or with one below 1. */
    method PutForArtifact(tables: Tables, a: Id, req: Policy) returns (stored: bool)
      requires Valid()
      requires req.keepLast.Some? ==> req.keepLast.value <= MAX_INT32
      requires req.maxAgeDays.Some? ==> req.maxAgeDays.value <= MAX_INT32
      modifies this
      ensures Valid() && ofType == old(ofType)
      ensures stored <==> req.Stored() && a in tables.artifacts
      ensures ofArtifact == if stored then old(ofArtifact)[a := req] else old(ofArtifact)
    {
      if (req.keepLast.Some? && req.keepLast.value < 1) || (req.maxAgeDays.Some? && req.maxAgeDays.value < 1) {
        return false;
      }
      if req.keepLast.None? && req.maxAgeDays.None? {
        return false;
      }
      if a !in tables.artifacts {
        return false;
      }
      ofArtifact := ofArtifact[a := req];
      stored := true;
    }

    /** PutForType */
    method PutForType(tables: Tables, y: Id, req: Policy) returns (stored: bool)
      requires Valid()
      requires req.keepLast.Some? ==> req.keepLast.value <= MAX_INT32
      requires req.maxAgeDays.Some? ==> req.maxAgeDays.value <= MAX_INT32
      modifies this
      ensures Valid() && ofArtifact == old(ofArtifact)
      ensures stored <==> req.Stored() && y in tables.types
      ensures ofType == if stored then old(ofType)[y := req] else old(ofType)
    {
      if (req.keepLast.Some? && req.keepLast.value < 1) || (req.maxAgeDays.Some? && req.maxAgeDays.value < 1) {
        return false;
      }
      if req.keepLast.None? && req.maxAgeDays.None? {
        return false;
      }
      if y !in tables.types {
        return false;
      }
      ofType := ofType[y := req];
      stored := true;
    }

    /** DeleteForArtifact; false is its not-found answer. */
    method DeleteForArtifact(a: Id) returns (found: bool)
      requires Valid()
      modifies this
      ensures Valid() && ofType == old(ofType)
      ensures found <==> a in old(ofArtifact)
      ensures ofArtifact == old(ofArtifact) - {a}
    {
      found := a in ofArtifact;
      ofArtifact := ofArtifact - {a};
    }

    method DeleteForType(y: Id) returns (found: bool)
      requires Valid()
      modifies this
      ensures Valid() && ofArtifact == old(ofArtifact)
      ensures found <==> y in old(ofType)
      ensures ofType == old(ofType) - {y}
    {
      found := y in ofType;
      ofType := ofType - {y};
    }

    /** ListTypeRetentionPoliciesForArtifact: the policies of the artifact's types, in some order. */
    method TypePolicies(tables: Tables, a: Id) returns (policies: seq<Policy>)
      ensures forall p :: p in policies <==> exists y :: y in ofType && (a, y) in tables.typeMap && ofType[y] == p
    {
      policies := [];
      var todo := ofType.Keys;
      while todo != {}
        invariant todo <= ofType.Keys
        invariant forall p :: p in policies <==> exists y :: (a, y) in tables.typeMap && y in ofType && y !in todo && ofType[y] == p
        decreases |todo|
      {
        var y :| y in todo;
        todo := todo - {y};
        if (a, y) in tables.typeMap {
          policies := policies + [ofType[y]];
        }
      }
    }

    /** GetForArtifact: an artifact's own policy replaces those of its types, which are merged otherwise. */
    method GetForArtifact(tables: Tables, a: Id, now: int) returns (source: Source, rule: Option<Policy>, filter: Query)
      requires Valid()
      ensures a in ofArtifact ==> source == FromArtifact && rule == Some(ofArtifact[a])
      ensures a !in ofArtifact ==>
                (source == FromTypes <==> exists y :: y in ofType && (a, y) in tables.typeMap) && (source == FromTypes || source == Unset)
      ensures source == Unset <==> rule == None
      ensures source == FromTypes ==>
                && IsLargest(rule.value.keepLast, set y | y in ofType && (a, y) in tables.typeMap :: ofType[y].keepLast)
                && IsLargest(rule.value.maxAgeDays, set y | y in ofType && (a, y) in tables.typeMap :: ofType[y].maxAgeDays)
      ensures rule.Some? ==> rule.value.Stored()
      ensures filter == VersionFilter(rule, now)
      ensures filter.olderThan == if rule.Some? && rule.value.maxAgeDays.Some? then Some(now / 1_000_000_000 - 86_400 * rule.value.maxAgeDays.value) else None
      ensures filter.keepLast == if rule.Some? && rule.value.keepLast.Some? then Itoa(rule.value.keepLast.value) else ""
      ensures filter == NO_PARAMS <==> source == Unset
    {
      source, rule := Unset, None;
      if a in ofArtifact {
        source := FromArtifact;
        rule := MergeRetention([ofArtifact[a]]);
        assert KeepLasts([ofArtifact[a]]) == {ofArtifact[a].keepLast} && MaxAges([ofArtifact[a]]) == {ofArtifact[a].maxAgeDays};
      }
      var fromTypes := TypePolicies(tables, a);
      SameValues(fromTypes, ofType, tables.typeMap, a);
      hide IsLargest, Policy.Stored, Cutoff, Itoa;
      if a !in ofArtifact && |fromTypes| > 0 {
        source := FromTypes;
        rule := MergeRetention(fromTypes);
        MergedRuleIsStored(fromTypes, rule.value);
      }
      filter := VersionFilter(rule, now);
      if rule.Some? && rule.value.maxAgeDays.Some? {
        CutoffIsWholeDaysBack(now, rule.value.maxAgeDays.value);
      }
    }
  }
}
