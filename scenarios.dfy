/** Worked cases of the by-name lookup: an override suppressing its base
    member, a final base member that stays visible, and a repeated query. */
module Scenarios {
  import opened FirMembers
  import opened OverrideRules
  import opened MemberLookup
  import opened UseSiteScope

  const AnyType := ConeKotlinType(0)
  const StringType := ConeKotlinType(1)

  /** Every type is a subtype of itself and of Any; types are equal only when identical. */
  const Comparator := TypeComparator((sub, sup) => sub == sup || sup == AnyType, (a, b) => a == b)

  /** A processor that takes every member. */
  const TakeAll: Processor := (passed, s) => Next

  function Function(id: nat, returnType: ConeKotlinType, modality: Modality, isOverride: bool,
                    name: Name): Symbol {
    Symbol(id, FirCallableMember(name, NamedFunction([]), None, FirResolvedTypeRef(returnType), modality, isOverride))
  }

  /** `open fun f(): Any` in Base. */
  const BaseF := Function(1, AnyType, Open, false, "f")
  /** `override fun f(): String` in Derived. */
  const DerivedF := Function(2, StringType, Open, true, "f")
  /** `final fun g()` in Base. */
  const BaseG := Function(3, AnyType, Final, false, "g")
  /** `override fun g()` in Derived. */
  const DerivedG := Function(4, AnyType, Open, true, "g")

  /** Derived's `f` overrides Base's: the lookup yields Derived.f alone and
      records the decision. */
  lemma DerivedOverrideHidesBase()
    ensures Lookup(Comparator, map[], [DerivedF], [BaseF], TakeAll) ==
            LookupResult(Success(Next), [DerivedF], map[BaseF := Some(DerivedF)])
  {
    DeclaredPhaseOfOne(DerivedF);
    assert Comparator.isSubtypeOf(StringType, AnyType);
    assert Overrides(Comparator, DerivedF.fir, BaseF.fir) == Success(true);
    assert FindOverriding(Comparator, BaseF, [DerivedF]) == Success(Some(DerivedF));
    var cache := map[BaseF := Some(DerivedF)];
    assert IsOverriddenCached(Comparator, map[], BaseF, [DerivedF]) == (Success(Some(DerivedF)), cache);
    assert [BaseF][1..] == [];
    assert SupertypePass(Comparator, cache, [DerivedF], [], TakeAll, [DerivedF]) ==
           LookupResult(Success(Next), [DerivedF], cache);
  }

  /** Asked again, the same lookup answers from the cache and leaves it as it is. */
  lemma DerivedOverrideFromCache()
    ensures var cache := map[BaseF := Some(DerivedF)];
            Lookup(Comparator, cache, [DerivedF], [BaseF], TakeAll) == LookupResult(Success(Next), [DerivedF], cache)
  {
    DeclaredPhaseOfOne(DerivedF);
    var cache := map[BaseF := Some(DerivedF)];
    assert IsOverriddenCached(Comparator, cache, BaseF, [DerivedF]) == (Success(Some(DerivedF)), cache);
    assert [BaseF][1..] == [];
    assert SupertypePass(Comparator, cache, [DerivedF], [], TakeAll, [DerivedF]) ==
           LookupResult(Success(Next), [DerivedF], cache);
  }

  /** A final base member is not suppressed by an override-marked declaration. */
  lemma FinalBaseStaysVisible()
    ensures Lookup(Comparator, map[], [DerivedG], [BaseG], TakeAll) ==
            LookupResult(Success(Next), [DerivedG, BaseG], map[BaseG := None])
  {
    DeclaredPhaseOfOne(DerivedG);
    FinalIsNeverOverridden(Comparator, BaseG, [DerivedG]);
    var cache := map[BaseG := None];
    assert IsOverriddenCached(Comparator, map[], BaseG, [DerivedG]) == (Success(None), cache);
    assert [BaseG][1..] == [];
    assert TakeAll([DerivedG], BaseG) == Next;
    assert [DerivedG] + [BaseG] == [DerivedG, BaseG];
    assert SupertypePass(Comparator, cache, [DerivedG], [], TakeAll, [DerivedG, BaseG]) ==
           LookupResult(Success(Next), [DerivedG, BaseG], cache);
  }

  /** Without the override marker, an identical signature does not hide the base member. */
  lemma UnmarkedDeclarationShadowsNothing()
    ensures var shadow := Function(5, StringType, Open, false, "f");
            Lookup(Comparator, map[], [shadow], [BaseF], TakeAll) ==
            LookupResult(Success(Next), [shadow, BaseF], map[BaseF := None])
  {
    var shadow := Function(5, StringType, Open, false, "f");
    DeclaredPhaseOfOne(shadow);
    assert FindOverriding(Comparator, BaseF, [shadow]) == Success(None);
    var cache := map[BaseF := None];
    assert IsOverriddenCached(Comparator, map[], BaseF, [shadow]) == (Success(None), cache);
    assert [BaseF][1..] == [];
    assert TakeAll([shadow], BaseF) == Next;
    assert [shadow] + [BaseF] == [shadow, BaseF];
    assert SupertypePass(Comparator, cache, [shadow], [], TakeAll, [shadow, BaseF]) ==
           LookupResult(Success(Next), [shadow, BaseF], cache);
  }

  /** One declared member is passed on and recorded. */
  lemma DeclaredPhaseOfOne(d: Symbol)
    ensures Drain([d], TakeAll, []) == (Next, [d])
    ensures SeenOf([d]) == [d]
  {
    assert [d][1..] == [] && [d][..0] == [];
    assert TakeAll([], d) == Next;
    assert [] + [d] == [d];
    assert Drain([], TakeAll, [d]) == (Next, [d]);
  }

  /** Querying the same name twice on one use-site scope yields the same
      members, and the second query answers from the cache. */
  method QueryTwice() returns (first: seq<Symbol>, second: seq<Symbol>, cached: OverrideCache)
    ensures first == second == [DerivedF]
    ensures cached == map[BaseF := Some(DerivedF)]
  {
    var declared := MemberScope(map["f" := [DerivedF]], map[]);
    var supertypes := MemberScope(map["f" := [BaseF]], map[]);
    var scope := new FirClassUseSiteScope(supertypes, declared, Comparator);
    assert ByName(declared, Functions, "f") == [DerivedF];
    assert ByName(supertypes, Functions, "f") == [BaseF];
    DerivedOverrideHidesBase();
    DerivedOverrideFromCache();
    var action;
    action, first := scope.ProcessFunctionsByName("f", TakeAll);
    assert scope.overrides == map[BaseF := Some(DerivedF)];
    action, second := scope.ProcessFunctionsByName("f", TakeAll);
    cached := scope.overrides;
  }
}
