/** What a resolved restore policy says to the operator: whose confirmation it carries, and who owns each volume. */
module OwnershipLayers {
  import opened Text
  import opened Ownership

  /** The owner a policy gives a volume: its own, else the default one. */
  function OwnerBy(policy: Policy, key: string): Option<string> {
    if key in policy.mappings.Keys then Some(policy.mappings[key]) else policy.fallback
  }

  /** For the volumes in scope, or as a whole when there are none, the result does what the layer does. */
  ghost predicate Does(result: Policy, layer: Policy, list: seq<Scope>) {
    && result.mode == layer.mode
    && (forall s | s in list :: OwnerBy(result, s.key) == OwnerBy(layer, s.key))
    && (list == [] ==> result.mappings == layer.mappings && result.fallback == layer.fallback)
  }

  lemma AlikeDoes(result: Policy, layer: Policy, list: seq<Scope>)
    requires Alike(result, layer, list)
    ensures Does(result, layer, list)
  {
    forall s | s in list
      ensures OwnerBy(result, s.key) == OwnerBy(layer, s.key)
    {
      assert Mentioned(list, s.key);
    }
  }

  lemma CandidateDoes(policy: Policy, layers: seq<Layer>, list: seq<Scope>, layer: Policy)
    requires Speaks(policy, layers, list) && Layer(layer) in layers
    ensures Does(policy, layer, list)
  {
    hide Alike, Does, Candidates, Policy.Valid;
    AlikeDoes(policy, layer, list);
  }

  lemma CandidatesInOrder(a: Layer, b: Layer, c: Layer)
    ensures Candidates([a, b, c])
         == (if a.Layer? then [a.policy] else []) + (if b.Layer? then [b.policy] else []) + if c.Layer? then [c.policy] else []
  {
    assert [a, b, c][1..] == [b, c] && [b, c][1..] == [c] && [c][1..] == [];
    assert Candidates([c]) == if c.Layer? then [c.policy] else [];
    assert Candidates([b, c]) == (if b.Layer? then [b.policy] else []) + Candidates([c]);
    assert Candidates([a, b, c]) == (if a.Layer? then [a.policy] else []) + Candidates([b, c]);
  }

  /** A resolved policy does what every layer does, and carries the confirmation of the first: the request's own, none from a
      target's defaults, and a given one from the legacy text. With no layer at all owners are preserved. */
  lemma ResolvedMeans(request: Layer, target: Layer, legacy: Option<string>, entries: seq<Entry>, policy: Policy)
    requires Accepted(request, target, legacy, entries)
    requires Speaks(policy, [request, TargetLayer(target), LegacyLayer(legacy)], ScopesOf(entries))
    ensures request.Layer? ==> Does(policy, request.policy, ScopesOf(entries)) && policy.confirmation == request.policy.confirmation
    ensures target.Layer? ==> Does(policy, target.policy, ScopesOf(entries))
    ensures legacy.Some? ==> Canonical(legacy.value).Some? && policy.mode == MapOwners
                             && forall s | s in ScopesOf(entries) :: OwnerBy(policy, s.key) == Canonical(legacy.value)
    ensures !request.Layer? && target.Layer? ==> policy.confirmation == Unasked
    ensures !request.Layer? && !target.Layer? && legacy.Some? ==> policy.confirmation == Confirmed
    ensures !request.Layer? && !target.Layer? && legacy.None? ==> policy == Policy(Preserve, map[], None, Unasked)
    ensures !request.Bad? && !target.Bad?
  {
    hide Alike, Policy.Valid, Acceptable, Known, Candidates, ConfirmationHeld;
    var layers := [request, TargetLayer(target), LegacyLayer(legacy)];
    CandidatesInOrder(layers[0], layers[1], layers[2]);
    assert Fine(layers);
    assert !layers[0].Bad? && !layers[1].Bad? && !layers[2].Bad?;
    AcceptableMeans(entries);
    var list := ScopesOf(entries);
    if request.Layer? {
      CandidateDoes(policy, layers, list, request.policy);
    }
    if target.Layer? {
      CandidateDoes(policy, layers, list, layers[1].policy);
    }
    if legacy.Some? {
      assert layers[2] in layers;
      CandidateDoes(policy, layers, list, layers[2].policy);
    }
  }
}
