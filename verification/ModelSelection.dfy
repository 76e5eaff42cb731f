/** Choosing a model from the registry, and giving constraints up in order when nothing fits
    (roots/llm/registry.go, roots/llm/client.go). */
module ModelSelection {
  import opened StableSorting
  import opened Text

  datatype Model = Model(
    provider: string, name: string, tier: string, contextSize: int, vision: bool, reasoning: bool, drivesTools: bool)

  datatype Capabilities = Capabilities(
    provider: string, vision: bool, reasoning: bool, tools: bool, minContext: int, ceiling: string)

  datatype SelectionError = ProviderUnavailable | NothingServes

  datatype Selection = Chosen(model: Model) | NoModel(error: SelectionError)

  /** strings.ToLower and strings.EqualFold; nothing here depends on what they fold. */
  datatype Folding = Folding(lower: string -> string, equal: (string, string) -> bool)

  function Normal(names: Folding, name: string): string {
    names.lower(TrimSpace(name))
  }

  /** Everything but the three known tiers counts as premium. */
  function CanonicalTier(tier: string): string {
    if tier == "standard" || tier == "cheapest" then tier else "premium"
  }

  function Rank(tier: string): nat {
    var canonical := CanonicalTier(tier);
    if canonical == "cheapest" then 1 else if canonical == "standard" then 2 else 3
  }

  /** The order of the tiers: "cheapest", then "standard", then every other name, which all count as premium. */
  predicate Dearer(tier: string, than: string) {
    || (than == "cheapest" && tier != "cheapest")
    || (than == "standard" && tier != "cheapest" && tier != "standard")
  }

  lemma RankOrdersTiers(tier: string, than: string)
    ensures Rank(tier) > Rank(than) <==> Dearer(tier, than)
    ensures Rank(tier) == Rank(than) <==> !Dearer(tier, than) && !Dearer(than, tier)
  {
  }

  lemma CanonicalTierIsAsDear(tier: string)
    ensures forall other: string :: Dearer(other, CanonicalTier(tier)) <==> Dearer(other, tier)
    ensures CanonicalTier(tier) != ""
  {
  }

  /** Whether a model meets the demands. A blank provider, a context size of at most 0 and an empty ceiling demand
      nothing. */
  predicate Serves(m: Model, caps: Capabilities, available: set<string>, names: Folding) {
    && Normal(names, m.provider) in available
    && (Normal(names, caps.provider) != "" ==>
          Normal(names, caps.provider) in available && names.equal(TrimSpace(m.provider), Normal(names, caps.provider)))
    && (caps.vision ==> m.vision)
    && (caps.reasoning ==> m.reasoning)
    && (caps.tools ==> m.drivesTools)
    && (caps.minContext > 0 ==> m.contextSize >= caps.minContext)
    && (caps.ceiling != "" ==> !Dearer(m.tier, caps.ceiling))
  }

  function RankOf(m: Model): nat {
    Rank(m.tier)
  }

  function Server(caps: Capabilities, available: set<string>, names: Folding): Model -> bool {
    m => Serves(m, caps, available, names)
  }

  function Matches(registry: seq<Model>, caps: Capabilities, available: set<string>, names: Folding): seq<Model> {
    Filter(registry, Server(caps, available, names))
  }

  function Select(registry: seq<Model>, caps: Capabilities, available: set<string>, names: Folding): Selection {
    var matches := Matches(registry, caps, available, names);
    var wanted := Normal(names, caps.provider);
    if wanted != "" && wanted !in available then NoModel(ProviderUnavailable)
    else if matches == [] then NoModel(NothingServes)
    else
      SortIsStable(matches, RankOf, 0);
      Chosen(StableSort(matches, RankOf)[0])
  }

  // ---------------------------------------------------------------------------------------------
  // Selecting one model
  // ---------------------------------------------------------------------------------------------

  /** The provider names that can be reached, normalised. */
  function Normals(names: Folding, providers: seq<string>): set<string> {
    set k | 0 <= k < |providers| :: Normal(names, providers[k])
  }

  lemma NormalsGrow(names: Folding, providers: seq<string>, k: nat)
    requires k < |providers|
    ensures Normals(names, providers[..k + 1]) == Normals(names, providers[..k]) + {Normal(names, providers[k])}
  {
    assert providers[..k + 1] == providers[..k] + [providers[k]];
  }

  lemma MatchesGrow(registry: seq<Model>, caps: Capabilities, available: set<string>, names: Folding, k: nat)
    requires k < |registry|
    ensures Matches(registry[..k + 1], caps, available, names)
            == Matches(registry[..k], caps, available, names)
               + (if Serves(registry[k], caps, available, names) then [registry[k]] else [])
  {
    assert registry[..k + 1][..k] == registry[..k];
  }

  /** SelectBestModelFromRegistry: filter, sort, take the first. */
  method SelectBestModelFromRegistry(caps: Capabilities, registry: seq<Model>, providers: seq<string>, names: Folding)
    returns (result: Selection)
    ensures result == Select(registry, caps, Normals(names, providers), names)
  {
    var available: set<string> := {};
    for k := 0 to |providers|
      invariant available == Normals(names, providers[..k])
    {
      NormalsGrow(names, providers, k);
      available := available + {Normal(names, providers[k])};
    }
    assert providers[..|providers|] == providers;
    var wanted := Normal(names, caps.provider);
    if wanted != "" && wanted !in available {
      return NoModel(ProviderUnavailable);
    }
    var matches: seq<Model> := [];
    for k := 0 to |registry|
      invariant matches == Matches(registry[..k], caps, available, names)
    {
      MatchesGrow(registry, caps, available, names, k);
      var model := registry[k];
      if Normal(names, model.provider) !in available {
        continue;
      }
      if wanted != "" && !names.equal(TrimSpace(model.provider), wanted) {
        continue;
      }
      if caps.vision && !model.vision {
        continue;
      }
      if caps.reasoning && !model.reasoning {
        continue;
      }
      if caps.tools && !model.drivesTools {
        continue;
      }
      if caps.minContext > 0 && model.contextSize < caps.minContext {
        continue;
      }
      RankOrdersTiers(model.tier, caps.ceiling);
      if caps.ceiling != "" && Rank(model.tier) > Rank(caps.ceiling) {
        continue;
      }
      matches := matches + [model];
    }
    assert registry[..|registry|] == registry;
    if matches == [] {
      return NoModel(NothingServes);
    }
    var shelf := new Model[|matches|](k requires 0 <= k < |matches| => matches[k]);
    assert shelf[..] == matches;
    SortStable(shelf, RankOf);
    SortIsStable(matches, RankOf, 0);
    result := Chosen(shelf[0]);
  }

  /** Some registered model serves. */
  predicate SomeServes(registry: seq<Model>, caps: Capabilities, available: set<string>, names: Folding) {
    exists i | 0 <= i < |registry| :: Serves(registry[i], caps, available, names)
  }

  /** Model i serves, no other that serves is dearer, and none before it is as dear. */
  predicate BestAt(registry: seq<Model>, caps: Capabilities, available: set<string>, names: Folding, i: nat) {
    && i < |registry| && Serves(registry[i], caps, available, names)
    && forall j | 0 <= j < |registry| && Serves(registry[j], caps, available, names) ::
         !Dearer(registry[j].tier, registry[i].tier) && (j < i ==> Dearer(registry[i].tier, registry[j].tier))
  }

  /** m is the earliest registered model of the dearest tier among those that serve. */
  ghost predicate IsBest(registry: seq<Model>, caps: Capabilities, available: set<string>, names: Folding, m: Model) {
    exists i: nat :: BestAt(registry, caps, available, names, i) && registry[i] == m
  }

  lemma BestByTier(registry: seq<Model>, caps: Capabilities, available: set<string>, names: Folding, i: nat)
    requires Best(registry, Server(caps, available, names), RankOf, i)
    ensures BestAt(registry, caps, available, names, i)
  {
    var serves := Server(caps, available, names);
    forall j | 0 <= j < |registry| && Serves(registry[j], caps, available, names)
      ensures !Dearer(registry[j].tier, registry[i].tier) && (j < i ==> Dearer(registry[i].tier, registry[j].tier))
    {
      assert serves(registry[j]);
      RankOrdersTiers(registry[j].tier, registry[i].tier);
      RankOrdersTiers(registry[i].tier, registry[j].tier);
    }
  }

  lemma MatchesExactlyWhenSomeServes(registry: seq<Model>, caps: Capabilities, available: set<string>, names: Folding)
    ensures Matches(registry, caps, available, names) != [] <==> SomeServes(registry, caps, available, names)
  {
    var serves := Server(caps, available, names);
    if Matches(registry, caps, available, names) != [] {
      var j := FilterPasses(registry, serves, 0);
      assert Serves(registry[j], caps, available, names);
    } else {
      forall i: nat | i < |registry| ensures !Serves(registry[i], caps, available, names) {
        if serves(registry[i]) {
          var k := FilterKeeps(registry, serves, i);
        }
      }
    }
  }

  lemma HeadIsBest(registry: seq<Model>, caps: Capabilities, available: set<string>, names: Folding)
    requires Matches(registry, caps, available, names) != []
    ensures var sorted := StableSort(Matches(registry, caps, available, names), RankOf);
            sorted != [] && IsBest(registry, caps, available, names, sorted[0])
  {
    var k := SortedHeadLeads(Matches(registry, caps, available, names), RankOf);
    var i := LeaderOfFilter(registry, Server(caps, available, names), RankOf, k);
    BestByTier(registry, caps, available, names, i);
  }

  /** Selection finds the best model that serves, and fails exactly when none does; the failure is blamed on the
      provider exactly when the named provider is not available. */
  lemma SelectionIsBest(registry: seq<Model>, caps: Capabilities, available: set<string>, names: Folding)
    ensures var s := Select(registry, caps, available, names);
            && (s.Chosen? <==> SomeServes(registry, caps, available, names))
            && (s.Chosen? ==> IsBest(registry, caps, available, names, s.model))
            && (s == NoModel(ProviderUnavailable)
                <==> Normal(names, caps.provider) != "" && Normal(names, caps.provider) !in available)
  {
    MatchesExactlyWhenSomeServes(registry, caps, available, names);
    if Matches(registry, caps, available, names) != [] {
      HeadIsBest(registry, caps, available, names);
    }
  }

  /** The model that is selected meets every demand, and none is missing when a registered model meets them all. */
  lemma SelectionMeetsDemands(registry: seq<Model>, caps: Capabilities, available: set<string>, names: Folding, k: nat)
    requires k < |registry|
    ensures var s := Select(registry, caps, available, names);
            s.Chosen? ==>
              && s.model in registry && names.lower(TrimSpace(s.model.provider)) in available
              && (caps.vision ==> s.model.vision) && (caps.reasoning ==> s.model.reasoning)
              && (caps.tools ==> s.model.drivesTools)
              && (caps.minContext > 0 ==> s.model.contextSize >= caps.minContext)
              && (caps.ceiling == "cheapest" ==> s.model.tier == "cheapest")
              && (caps.ceiling == "standard" ==> s.model.tier == "cheapest" || s.model.tier == "standard")
    ensures var m, wanted := registry[k], names.lower(TrimSpace(caps.provider));
            && names.lower(TrimSpace(m.provider)) in available
            && (wanted == "" || (wanted in available && names.equal(TrimSpace(m.provider), wanted)))
            && (m.vision || !caps.vision) && (m.reasoning || !caps.reasoning) && (m.drivesTools || !caps.tools)
            && (caps.minContext <= 0 || m.contextSize >= caps.minContext)
            && (m.tier == "cheapest" || (m.tier == "standard" && caps.ceiling != "cheapest")
                || (caps.ceiling != "cheapest" && caps.ceiling != "standard"))
            ==> Select(registry, caps, available, names).Chosen?
  {
    var s := Select(registry, caps, available, names);
    SelectionIsBest(registry, caps, available, names);
    if s.Chosen? {
      BestServes(registry, caps, available, names, s.model);
    } else {
      assert !Serves(registry[k], caps, available, names);
    }
  }

  // ---------------------------------------------------------------------------------------------
  // Giving constraints up
  // ---------------------------------------------------------------------------------------------

  /** A provider name, and whether somebody chose it or it was only guessed. */
  datatype Choice = Choice(name: string, explicit: bool)

  /** The models that the environment and the configuration name: for the provider and tier, for the provider,
      for any provider, and in the configuration of the provider. */
  datatype Pins = Pins(forTier: string, forProvider: string, forAll: string, configured: string)

  datatype Resolution =
    | Pinned(provider: string, name: string)
    | Selected(model: Model)
    | Unresolved(error: SelectionError)

  /** What is asked of a model of this choice. An empty ceiling admits any price. */
  function Demand(choice: Choice, tools: bool, ceiling: string): Capabilities {
    Capabilities(if choice.explicit then choice.name else "", false, false, tools, 0, ceiling)
  }

  method ResolveForProviderChoice(
    choice: Choice, tier: string, requireTools: bool, pins: Pins, providers: seq<string>, names: Folding,
    registry: seq<Model>)
    returns (r: Resolution)
    ensures if TrimSpace(pins.forTier) != "" then r == Pinned(choice.name, TrimSpace(pins.forTier))
            else if TrimSpace(pins.forProvider) != "" then r == Pinned(choice.name, TrimSpace(pins.forProvider))
            else if TrimSpace(pins.forAll) != "" then r == Pinned(choice.name, TrimSpace(pins.forAll))
            else if TrimSpace(pins.configured) != "" then r == Pinned(choice.name, TrimSpace(pins.configured))
            else r == Resolve(choice, tier, requireTools, Normals(names, providers), names, registry)
  {
    var canonical := CanonicalTier(tier);
    if TrimSpace(pins.forTier) != "" {
      return Pinned(choice.name, TrimSpace(pins.forTier));
    }
    if TrimSpace(pins.forProvider) != "" {
      return Pinned(choice.name, TrimSpace(pins.forProvider));
    }
    if TrimSpace(pins.forAll) != "" {
      return Pinned(choice.name, TrimSpace(pins.forAll));
    }
    if TrimSpace(pins.configured) != "" {
      return Pinned(choice.name, TrimSpace(pins.configured));
    }
    var caps := Demand(choice, requireTools, canonical);
    var selection := SelectBestModelFromRegistry(caps, registry, providers, names);
    if selection.NoModel? && requireTools {
      selection := SelectBestModelFromRegistry(caps.(ceiling := ""), registry, providers, names);
      if selection.NoModel? {
        selection := SelectBestModelFromRegistry(caps.(tools := false), registry, providers, names);
      }
    }
    r := if selection.Chosen? then Selected(selection.model) else Unresolved(selection.error);
  }

  function OrElse(first: Selection, next: Selection): Selection {
    if first.Chosen? then first else next
  }

  /** The resolution without a pin: cost gives way before the use of tools, and the chosen provider never does. */
  function Resolve(
      choice: Choice, tier: string, requireTools: bool, available: set<string>, names: Folding,
      registry: seq<Model>): Resolution {
    var ceiling := CanonicalTier(tier);
    var anyModel := Select(registry, Demand(choice, false, ceiling), available, names);
    var selection :=
      if requireTools
      then OrElse(Select(registry, Demand(choice, true, ceiling), available, names),
                  OrElse(Select(registry, Demand(choice, true, ""), available, names), anyModel))
      else anyModel;
    if selection.Chosen? then Selected(selection.model) else Unresolved(selection.error)
  }

  /** The ladder, rung by rung, against the declared best. */
  lemma OrderedRelaxation(
      choice: Choice, tier: string, requireTools: bool, available: set<string>, names: Folding, registry: seq<Model>)
    ensures var r := Resolve(choice, tier, requireTools, available, names, registry);
            var capped := Demand(choice, requireTools, CanonicalTier(tier));
            var anyPrice := Demand(choice, true, "");
            var anyModel := Demand(choice, false, CanonicalTier(tier));
            if SomeServes(registry, capped, available, names)
              then r.Selected? && IsBest(registry, capped, available, names, r.model)
            else if requireTools && SomeServes(registry, anyPrice, available, names)
              then r.Selected? && IsBest(registry, anyPrice, available, names, r.model)
            else if requireTools && SomeServes(registry, anyModel, available, names)
              then r.Selected? && IsBest(registry, anyModel, available, names, r.model)
            else r.Unresolved?
  {
    SelectionIsBest(registry, Demand(choice, requireTools, CanonicalTier(tier)), available, names);
    SelectionIsBest(registry, Demand(choice, true, ""), available, names);
    SelectionIsBest(registry, Demand(choice, false, CanonicalTier(tier)), available, names);
  }

  lemma BestServes(registry: seq<Model>, caps: Capabilities, available: set<string>, names: Folding, m: Model)
    requires IsBest(registry, caps, available, names, m)
    ensures Serves(m, caps, available, names) && m in registry
  {
  }

  /** A weaker demand is served whenever a stronger one is. */
  lemma Weaker(registry: seq<Model>, strong: Capabilities, weak: Capabilities, available: set<string>, names: Folding)
    requires SomeServes(registry, strong, available, names)
    requires forall m | Serves(m, strong, available, names) :: Serves(m, weak, available, names)
    ensures SomeServes(registry, weak, available, names)
  {
  }

  /** Where tools are required, the model found drives tools exactly when any reachable model of the choice does,
      at any price. */
  lemma ToolsOutlastCost(choice: Choice, tier: string, available: set<string>, names: Folding, registry: seq<Model>)
    ensures var r := Resolve(choice, tier, true, available, names, registry);
            r.Selected? && r.model.drivesTools <==> SomeServes(registry, Demand(choice, true, ""), available, names)
  {
    var r := Resolve(choice, tier, true, available, names, registry);
    var ceiling := CanonicalTier(tier);
    OrderedRelaxation(choice, tier, true, available, names, registry);
    if SomeServes(registry, Demand(choice, true, ceiling), available, names) {
      BestServes(registry, Demand(choice, true, ceiling), available, names, r.model);
      Weaker(registry, Demand(choice, true, ceiling), Demand(choice, true, ""), available, names);
    } else if SomeServes(registry, Demand(choice, true, ""), available, names) {
      BestServes(registry, Demand(choice, true, ""), available, names, r.model);
    } else if r.Selected? {
      BestServes(registry, Demand(choice, false, ceiling), available, names, r.model);
      var m := r.model;
      assert m.drivesTools ==> Serves(m, Demand(choice, true, ceiling), available, names);
    }
  }

  /** A model dearer than the asked tier is taken exactly when tools are required and no model at or under the tier
      drives them while a dearer one does. */
  lemma CeilingGivesWayOnlyToTools(
    choice: Choice, tier: string, requireTools: bool, available: set<string>, names: Folding, registry: seq<Model>)
    ensures var r := Resolve(choice, tier, requireTools, available, names, registry);
            r.Selected? && Dearer(r.model.tier, tier) <==>
            && requireTools && SomeServes(registry, Demand(choice, true, ""), available, names)
            && !SomeServes(registry, Demand(choice, true, CanonicalTier(tier)), available, names)
  {
    var r := Resolve(choice, tier, requireTools, available, names, registry);
    var ceiling := CanonicalTier(tier);
    CanonicalTierIsAsDear(tier);
    OrderedRelaxation(choice, tier, requireTools, available, names, registry);
    if SomeServes(registry, Demand(choice, requireTools, ceiling), available, names) {
      BestServes(registry, Demand(choice, requireTools, ceiling), available, names, r.model);
    } else if requireTools && SomeServes(registry, Demand(choice, true, ""), available, names) {
      BestServes(registry, Demand(choice, true, ""), available, names, r.model);
      assert !Serves(r.model, Demand(choice, true, ceiling), available, names);
    } else if r.Selected? {
      BestServes(registry, Demand(choice, false, ceiling), available, names, r.model);
    }
  }

  /** An explicit choice of provider is never left, and only a reachable model is ever taken. */
  lemma NeverLeavesTheProvider(
    choice: Choice, tier: string, requireTools: bool, available: set<string>, names: Folding, registry: seq<Model>)
    ensures var r := Resolve(choice, tier, requireTools, available, names, registry);
            r.Selected? ==>
              && r.model in registry && Normal(names, r.model.provider) in available
              && (choice.explicit && Normal(names, choice.name) != "" ==>
                names.equal(TrimSpace(r.model.provider), Normal(names, choice.name)))
  {
    var r := Resolve(choice, tier, requireTools, available, names, registry);
    OrderedRelaxation(choice, tier, requireTools, available, names, registry);
    var ceiling := CanonicalTier(tier);
    if SomeServes(registry, Demand(choice, requireTools, ceiling), available, names) {
      BestServes(registry, Demand(choice, requireTools, ceiling), available, names, r.model);
    } else if requireTools && SomeServes(registry, Demand(choice, true, ""), available, names) {
      BestServes(registry, Demand(choice, true, ""), available, names, r.model);
    } else if r.Selected? {
      BestServes(registry, Demand(choice, false, ceiling), available, names, r.model);
    }
  }

  /** Resolution fails exactly when nothing reachable fits under the ceiling and, where tools are required,
      nothing reachable drives tools at any price. */
  lemma FailsExactlyWhenNothingFits(
    choice: Choice, tier: string, requireTools: bool, available: set<string>, names: Folding, registry: seq<Model>)
    ensures Resolve(choice, tier, requireTools, available, names, registry).Unresolved? <==>
            && !SomeServes(registry, Demand(choice, false, CanonicalTier(tier)), available, names)
            && (requireTools ==> !SomeServes(registry, Demand(choice, true, ""), available, names))
  {
    var ceiling := CanonicalTier(tier);
    OrderedRelaxation(choice, tier, requireTools, available, names, registry);
    if SomeServes(registry, Demand(choice, true, ceiling), available, names) {
      Weaker(registry, Demand(choice, true, ceiling), Demand(choice, false, ceiling), available, names);
    }
  }

  /** A reachable model of the chosen provider, with tools where they are required. */
  predicate Eligible(m: Model, choice: Choice, tools: bool, available: set<string>, names: Folding) {
    var wanted := names.lower(TrimSpace(if choice.explicit then choice.name else ""));
    && names.lower(TrimSpace(m.provider)) in available && (tools ==> m.drivesTools)
    && (wanted != "" ==> wanted in available && names.equal(TrimSpace(m.provider), wanted))
  }

  /** A model of this tier costs no more than was asked for. */
  predicate Under(model: string, tier: string) {
    match tier
    case "cheapest" => model == "cheapest"
    case "standard" => model == "cheapest" || model == "standard"
    case _ => true
  }

  lemma ServesExactlyWhenEligible(
    m: Model, choice: Choice, tools: bool, tier: string, available: set<string>, names: Folding)
    ensures Serves(m, Demand(choice, tools, CanonicalTier(tier)), available, names)
            <==> Eligible(m, choice, tools, available, names) && Under(m.tier, tier)
    ensures Serves(m, Demand(choice, tools, ""), available, names) <==> Eligible(m, choice, tools, available, names)
  {
    CanonicalTierIsAsDear(tier);
  }

  /** Some eligible model costs no more than was asked for. */
  predicate SomeUnder(
    registry: seq<Model>, choice: Choice, tools: bool, tier: string, available: set<string>, names: Folding)
  {
    exists i | 0 <= i < |registry| ::
      Eligible(registry[i], choice, tools, available, names) && Under(registry[i].tier, tier)
  }

  lemma SomeServesUnder(
    registry: seq<Model>, choice: Choice, tools: bool, tier: string, available: set<string>, names: Folding)
    ensures SomeServes(registry, Demand(choice, tools, CanonicalTier(tier)), available, names)
            <==> SomeUnder(registry, choice, tools, tier, available, names)
  {
    forall i | 0 <= i < |registry|
      ensures Serves(registry[i], Demand(choice, tools, CanonicalTier(tier)), available, names)
              <==> Eligible(registry[i], choice, tools, available, names) && Under(registry[i].tier, tier)
    {
      ServesExactlyWhenEligible(registry[i], choice, tools, tier, available, names);
    }
  }

  /** Where no relaxation is needed the tier decides: the model costs no more than was asked for, and of the eligible
      ones that do not either it is of the dearest tier, where every name but "cheapest" and "standard" is premium. */
  lemma TierDecides(
    choice: Choice, tier: string, requireTools: bool, available: set<string>, names: Folding, registry: seq<Model>,
    k: nat)
    requires SomeUnder(registry, choice, requireTools, tier, available, names)
    requires k < |registry| && Eligible(registry[k], choice, requireTools, available, names)
    ensures var r := Resolve(choice, tier, requireTools, available, names, registry);
            && r.Selected? && r.model in registry && Eligible(r.model, choice, requireTools, available, names)
            && (tier == "cheapest" ==> r.model.tier == "cheapest")
            && (tier == "standard" ==> r.model.tier == "cheapest" || r.model.tier == "standard")
            && (tier == "standard" && registry[k].tier == "standard" ==> r.model.tier == "standard")
            && (tier != "cheapest" && tier != "standard" ==>
                  && (registry[k].tier != "cheapest" && registry[k].tier != "standard" ==>
                        r.model.tier != "cheapest" && r.model.tier != "standard")
                  && (registry[k].tier == "standard" ==> r.model.tier != "cheapest"))
  {
    var r := Resolve(choice, tier, requireTools, available, names, registry);
    var capped := Demand(choice, requireTools, CanonicalTier(tier));
    OrderedRelaxation(choice, tier, requireTools, available, names, registry);
    SomeServesUnder(registry, choice, requireTools, tier, available, names);
    BestServes(registry, capped, available, names, r.model);
    ServesExactlyWhenEligible(r.model, choice, requireTools, tier, available, names);
    ServesExactlyWhenEligible(registry[k], choice, requireTools, tier, available, names);
    assert Serves(registry[k], capped, available, names) ==> !Dearer(registry[k].tier, r.model.tier);
  }

  /** Where one is needed, tools go before cost: the model drives tools if an eligible one does, whatever its tier, and
      of those it is of the dearest tier; if none does, it costs no more than was asked for. */
  lemma RelaxationDecides(
    choice: Choice, tier: string, available: set<string>, names: Folding, registry: seq<Model>, k: nat)
    requires !SomeUnder(registry, choice, true, tier, available, names) && k < |registry|
    ensures var r := Resolve(choice, tier, true, available, names, registry);
            && (Eligible(registry[k], choice, true, available, names) ==>
                  && r.Selected? && Eligible(r.model, choice, true, available, names)
                  && !Dearer(registry[k].tier, r.model.tier))
            && (r.Selected? && !r.model.drivesTools ==>
                  Under(r.model.tier, tier) && !Eligible(registry[k], choice, true, available, names))
  {
    var r := Resolve(choice, tier, true, available, names, registry);
    OrderedRelaxation(choice, tier, true, available, names, registry);
    SomeServesUnder(registry, choice, true, tier, available, names);
    ServesExactlyWhenEligible(registry[k], choice, true, tier, available, names);
    if SomeServes(registry, Demand(choice, true, ""), available, names) {
      BestServes(registry, Demand(choice, true, ""), available, names, r.model);
      ServesExactlyWhenEligible(r.model, choice, true, tier, available, names);
    } else if r.Selected? {
      BestServes(registry, Demand(choice, false, CanonicalTier(tier)), available, names, r.model);
      ServesExactlyWhenEligible(r.model, choice, false, tier, available, names);
    }
  }

  /** Every other name of a tier asks for what "premium" asks for. */
  lemma OtherTiersArePremium(
    choice: Choice, tier: string, requireTools: bool, available: set<string>, names: Folding, registry: seq<Model>)
    requires tier != "cheapest" && tier != "standard"
    ensures Resolve(choice, tier, requireTools, available, names, registry)
            == Resolve(choice, "premium", requireTools, available, names, registry)
  {
  }
}
