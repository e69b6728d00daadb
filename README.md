# Class use-site member scope

This project models the class use-site scope of the Kotlin FIR front end
(`FirClassUseSiteScope`) and proves properties of it in Dafny. Given a name,
the scope lists a class's effective members of that name in two phases:

1. every declared member of that name is recorded in a fresh seen-set and
   passed to the caller's processor;
2. every member of that name visible from the supertypes is passed on only
   when no recorded declared member overrides it.

Whether a base member is overridden is decided against the seen-set. A
declared candidate overrides a base member when five things hold: the
candidate carries the override marker; the base is not final; the receivers
match; the candidate's return type is a subtype of the base's; and the kinds
are compatible. Compatible kinds means two functions with equal parameter
counts and pairwise-equal parameter types, or two properties. The first
qualifying candidate of the seen-set wins. The decision is memoized per base
symbol in the scope's mutable `overrides` map, where a None value means
"computed, no override".

Layout:

- `fir_members.dfy` (`FirMembers`): callable members, symbols, resolved type
  references and the type comparator. The subtype and type-equality
  predicates are the two fields of a `TypeComparator` value. They are total
  Dafny functions given by the caller, so they are deterministic but otherwise
  unconstrained.
- `override_rules.dfy` (`OverrideRules`): the pure decision. It covers the
  parameter check, the receiver check, the kind check, the filter over the
  seen-set and the choice of the first candidate.
- `member_lookup.dfy` (`MemberLookup`): the lookup as functions of the
  scopes' contents, the processor and the cache. It also holds a cache-free
  reference, `EffectiveMembers`, and the lemmas that relate the lookup to it.
- `use_site_scope.dfy` (`UseSiteScope`): the class `FirClassUseSiteScope`.
  Its `overrides` map is a field. `IsOverridden` reads and writes that field,
  and the by-name lookups run both phases as loops
  (`ProcessDeclaredMembers`, `ProcessSupertypeMembers`). Each method is proved
  equal to the lookup functions.
- `scenarios.dfy` (`Scenarios`): worked cases. An override hides its base
  member, a final base member stays visible, an unmarked declaration hides
  nothing, and a repeated query gives the same answer.

Modelling choices:

- The declared-member scope and the supertype scope are name-indexed maps to
  ordered sequences of symbols (`MemberScope`). Their by-name traversal
  passes each member to the processor in order and returns Stop at the first
  Stop (`Drain`, whose contract is the lemma `DrainContract`).
- The processor is a function of the members already passed to it and the
  new member. This covers any processor whose answers depend only on the
  members passed to it.
- A symbol is a value: an identity number together with its declaration. The
  cache is keyed by symbol.
- The seen-set keeps insertion order, as a linked set does. It is a sequence
  with no duplicates, in first-recorded order (`Record`, `SeenOf`). So the
  "first in seen order" of the override filter is the first qualifying
  declared member (`FirstDeclaredOverriderWins`).
- `filter { … }.firstOrNull()` is eager. Every seen member is checked before
  the first result is taken. So an unknown-kind candidate that comes after a
  qualifying one still raises the error (`LaterUnknownKindAborts`).
- The kind comparison looks at the declared candidate's kind, not at the base
  member's kind. A constructor candidate never overrides. A base constructor
  is never overridden either, because a function candidate needs a function
  base and a property candidate needs a property base
  (`ConstructorsNeverOverride`).
- A candidate of any other callable kind (`OtherCallable`) makes the kind
  comparison fail with `UnknownFirCallableType`. The failure propagates as a
  `Failure` result. The entry for that base is not cached, and the lookup ends
  with that failure.
- The cache only stays correct across different names when each supertype
  member is listed under its own name and category (`WellFormedScope`). The
  by-name methods state this as an implication. If the cache was sound and
  the supertype scope is well formed, the cache stays sound and the answer
  equals the one an empty cache would give. Without that assumption the
  methods still state exactly what the code does with a stale entry.
- The lookup does not remove duplicates: a member listed twice in a scope is
  passed to the processor twice.

## Model

| member | source | states |
|---|---|---|
| FirMembers.IsSubtypeOf | compiler/fir/resolve/src/org/jetbrains/kotlin/fir/scopes/impl/FirClassUseSiteScope.kt:40-43 | the subtype query on two resolved type references is the comparator's answer on their cone types; the comparator is left abstract |
| FirMembers.IsEqualTypes | compiler/fir/resolve/src/org/jetbrains/kotlin/fir/scopes/impl/FirClassUseSiteScope.kt:45-46 | the type-equality query on two resolved type references is the comparator's answer on their cone types; the comparator is left abstract |
| OverrideRules.ZipAllEqualTypes | compiler/fir/resolve/src/org/jetbrains/kotlin/fir/scopes/impl/FirClassUseSiteScope.kt:49-52 | the zipped `all` holds exactly when every position present in both lists has equal parameter types |
| OverrideRules.IsOverriddenFunCheck | compiler/fir/resolve/src/org/jetbrains/kotlin/fir/scopes/impl/FirClassUseSiteScope.kt:48-53 | two functions are similar iff their parameter counts are equal and their parameter types are equal position by position |
| OverrideRules.SameReceivers | compiler/fir/resolve/src/org/jetbrains/kotlin/fir/scopes/impl/FirClassUseSiteScope.kt:58-63 | receivers match when both are absent, never when exactly one is present, and when both are present iff their types are equal |
| OverrideRules.SimilarFunctionsOrBothProperties | compiler/fir/resolve/src/org/jetbrains/kotlin/fir/scopes/impl/FirClassUseSiteScope.kt:65-72 | fails exactly for a candidate of an unknown kind, naming both members; otherwise true iff both are similar functions or both are properties; never true when a constructor is involved |
| OverrideRules.Overrides | compiler/fir/resolve/src/org/jetbrains/kotlin/fir/scopes/impl/FirClassUseSiteScope.kt:76-80 | a candidate overrides iff it is marked override, the base is not final, receivers match, the return type is a subtype and the kinds are compatible; it fails only when the first four hold for an unknown-kind candidate; a final base or an unmarked candidate gives false |
| OverrideRules.OverridingCandidates | compiler/fir/resolve/src/org/jetbrains/kotlin/fir/scopes/impl/FirClassUseSiteScope.kt:75-81 | the filter succeeds iff no seen member's check fails; its members are exactly the seen members that override; its head is the first of them in seen order |
| OverrideRules.FindOverriding | compiler/fir/resolve/src/org/jetbrains/kotlin/fir/scopes/impl/FirClassUseSiteScope.kt:74-81 | the decision fails iff some seen member's check fails; it is None iff no seen member overrides; otherwise it is the first overriding member in seen order |
| OverrideRules.FinalIsNeverOverridden | compiler/fir/resolve/src/org/jetbrains/kotlin/fir/scopes/impl/FirClassUseSiteScope.kt:77 | a final base member is never overridden, whatever is seen |
| OverrideRules.UnmarkedMemberNeverOverrides | compiler/fir/resolve/src/org/jetbrains/kotlin/fir/scopes/impl/FirClassUseSiteScope.kt:77 | a declared member without the override marker is never chosen as overrider |
| OverrideRules.OverriderPassesAllChecks | compiler/fir/resolve/src/org/jetbrains/kotlin/fir/scopes/impl/FirClassUseSiteScope.kt:75-81 | the chosen overrider is seen, marked override, overrides a non-final base, has matching receivers and a subtype return, and is a property over a property or a function over a function of equal arity and equal parameter types |
| OverrideRules.ConstructorsNeverOverride | compiler/fir/resolve/src/org/jetbrains/kotlin/fir/scopes/impl/FirClassUseSiteScope.kt:65-72 | a declared constructor never overrides and a base constructor is never overridden |
| OverrideRules.FatalOnlyFromUnknownKind | compiler/fir/resolve/src/org/jetbrains/kotlin/fir/scopes/impl/FirClassUseSiteScope.kt:70-80 | a failed decision implies a non-final base and a seen member of unknown kind that carries the override marker, has matching receivers and a subtype return |
| OverrideRules.FirstCandidateWins | compiler/fir/resolve/src/org/jetbrains/kotlin/fir/scopes/impl/FirClassUseSiteScope.kt:81 | when several members qualify the first in seen order is chosen, so members recorded later cannot change a successful choice |
| OverrideRules.LaterUnknownKindAborts | compiler/fir/resolve/src/org/jetbrains/kotlin/fir/scopes/impl/FirClassUseSiteScope.kt:75-81 | the filter is eager: an unknown-kind candidate after a qualifying one still makes the decision fail |
| MemberLookup.DrainContract | compiler/fir/resolve/src/org/jetbrains/kotlin/fir/scopes/impl/FirClassUseSiteScope.kt:88-92 | a scope traversal passes a prefix of its members, each answered Next except possibly the last; it reports Stop exactly when the last answer was Stop and otherwise has passed every member |
| MemberLookup.Drain | compiler/fir/resolve/src/org/jetbrains/kotlin/fir/scopes/impl/FirClassUseSiteScope.kt:88-92 | the by-name traversal of one scope with early stop; its contract is stated and proved in `DrainContract` |
| MemberLookup.Record | compiler/fir/resolve/src/org/jetbrains/kotlin/fir/scopes/impl/FirClassUseSiteScope.kt:89 | `seen += it` on an insertion-ordered set: earlier members keep their places, the set gains exactly the new member, at most one element is added, and no duplicate arises |
| MemberLookup.SeenOf | compiler/fir/resolve/src/org/jetbrains/kotlin/fir/scopes/impl/FirClassUseSiteScope.kt:87-89 | the seen-set holds exactly the declared members, without duplicates, and when no member is listed twice it is the declared list itself, in order |
| MemberLookup.SeenOfPrefix | compiler/fir/resolve/src/org/jetbrains/kotlin/fir/scopes/impl/FirClassUseSiteScope.kt:87-89 | recording more members never reorders earlier ones: the seen-set of a prefix is a prefix of the seen-set |
| MemberLookup.FirstDeclaredOverriderWins | compiler/fir/resolve/src/org/jetbrains/kotlin/fir/scopes/impl/FirClassUseSiteScope.kt:75-81 | when the decision succeeds, the chosen overrider is the first qualifying declared member in declaration order |
| MemberLookup.SupertypePass | compiler/fir/resolve/src/org/jetbrains/kotlin/fir/scopes/impl/FirClassUseSiteScope.kt:94-102 | the supertype traversal that consults the cache per base member; its properties are the `SupertypePass…` lemmas below |
| MemberLookup.Lookup | compiler/fir/resolve/src/org/jetbrains/kotlin/fir/scopes/impl/FirClassUseSiteScope.kt:86-103 | the whole by-name lookup, declared phase then supertype phase; its properties are the `Lookup…` and `Declared…` lemmas below |
| MemberLookup.IsOverriddenCached | compiler/fir/resolve/src/org/jetbrains/kotlin/fir/scopes/impl/FirClassUseSiteScope.kt:55-84 | a cached key is answered from the cache whatever the seen-set; an absent key gets the fresh decision; after success the cache maps the key to exactly the answer and nothing else changes; a failure leaves the cache as it was |
| MemberLookup.Inherited | compiler/fir/resolve/src/org/jetbrains/kotlin/fir/scopes/impl/FirClassUseSiteScope.kt:94-102 | the inherited members are exactly the base members whose decision is None |
| MemberLookup.CachedNoneIsNotAbsent | compiler/fir/resolve/src/org/jetbrains/kotlin/fir/scopes/impl/FirClassUseSiteScope.kt:56 | a key mapped to None is answered None without recomputation, while the same key absent is computed and may find an overrider |
| MemberLookup.DeclaredStopSkipsSupertypes | compiler/fir/resolve/src/org/jetbrains/kotlin/fir/scopes/impl/FirClassUseSiteScope.kt:88-92 | if the declared phase stops, the lookup reports Stop, leaves the cache untouched and does not depend on the supertype scope at all |
| MemberLookup.DeclaredMembersComeFirst | compiler/fir/resolve/src/org/jetbrains/kotlin/fir/scopes/impl/FirClassUseSiteScope.kt:87-102 | whatever the cache holds, the declared phase's members are passed first: a stopped declared phase is the whole result, and a completed one is a prefix of it |
| MemberLookup.AfterDeclaredOnlyInherited | compiler/fir/resolve/src/org/jetbrains/kotlin/fir/scopes/impl/FirClassUseSiteScope.kt:94-102 | with an agreeing cache, every member after a completed declared phase is a base member that no declared member overrides |
| MemberLookup.LookupHonoursStop | compiler/fir/resolve/src/org/jetbrains/kotlin/fir/scopes/impl/FirClassUseSiteScope.kt:86-103 | the processor answers Stop at most once, on the last member it is given, and exactly then the lookup reports Stop; a reported Stop always comes with at least one member passed, so it means the last one was answered Stop |
| MemberLookup.SupertypePassHonoursStop | compiler/fir/resolve/src/org/jetbrains/kotlin/fir/scopes/impl/FirClassUseSiteScope.kt:94-102 | in the supertype phase the processor answers Stop at most once, on the last member passed, and the phase then reports Stop |
| MemberLookup.SupertypePassYieldsOnlyInherited | compiler/fir/resolve/src/org/jetbrains/kotlin/fir/scopes/impl/FirClassUseSiteScope.kt:94-102 | with an agreeing cache, every supertype member passed on is a base member whose decision is None |
| MemberLookup.SupertypePassFeedsInherited | compiler/fir/resolve/src/org/jetbrains/kotlin/fir/scopes/impl/FirClassUseSiteScope.kt:94-102 | with an agreeing cache and no fatal decision, the supertype phase is the traversal of the inherited members: a member is passed exactly when not overridden, skipped ones answer Next, and the phase's action is the traversal's |
| MemberLookup.LookupFeedsEffectiveMembers | compiler/fir/resolve/src/org/jetbrains/kotlin/fir/scopes/impl/FirClassUseSiteScope.kt:86-103 | under the same conditions the whole lookup is the traversal of the effective members: declared members, then the non-overridden inherited ones, halting at the first Stop |
| MemberLookup.InheritedIsNotOverridden | compiler/fir/resolve/src/org/jetbrains/kotlin/fir/scopes/impl/FirClassUseSiteScope.kt:94-102 | a base member is effective iff it is declared or no declared member overrides it |
| MemberLookup.SupertypePassCacheUpdate | compiler/fir/resolve/src/org/jetbrains/kotlin/fir/scopes/impl/FirClassUseSiteScope.kt:82 | the supertype phase only adds to the cache: old entries keep their values and each new entry is the fresh decision for one of the base members |
| MemberLookup.SupertypePassCacheTransparent | compiler/fir/resolve/src/org/jetbrains/kotlin/fir/scopes/impl/FirClassUseSiteScope.kt:56 | two caches that agree with the fresh decisions give the same outcome and members |
| MemberLookup.LookupKeepsAgreement | compiler/fir/resolve/src/org/jetbrains/kotlin/fir/scopes/impl/FirClassUseSiteScope.kt:82 | a lookup keeps an agreeing cache agreeing |
| MemberLookup.SupertypePassFreshExtension | compiler/fir/resolve/src/org/jetbrains/kotlin/fir/scopes/impl/FirClassUseSiteScope.kt:56 | a cache extended only by fresh decisions gives the same supertype phase, even when it holds stale entries |
| MemberLookup.LookupIsRepeatable | compiler/fir/resolve/src/org/jetbrains/kotlin/fir/scopes/impl/FirClassUseSiteScope.kt:37 | from any cache, stale entries included, repeating a lookup on the cache the first one left gives the identical outcome and members |
| MemberLookup.LookupCacheTransparent | compiler/fir/resolve/src/org/jetbrains/kotlin/fir/scopes/impl/FirClassUseSiteScope.kt:56 | two caches that agree with the fresh decisions give the same lookup outcome and members |
| MemberLookup.ScopedLookupKeepsSoundCache | compiler/fir/resolve/src/org/jetbrains/kotlin/fir/scopes/impl/FirClassUseSiteScope.kt:36-37 | for a well-formed supertype scope, a scope-wide cache keyed by base symbol stays sound across by-name lookups, and each lookup answers as with an empty cache |
| UseSiteScope.FirClassUseSiteScope.constructor | compiler/fir/resolve/src/org/jetbrains/kotlin/fir/scopes/impl/FirClassUseSiteScope.kt:28-37 | a new scope keeps the given scopes and comparator and starts with an empty, sound cache |
| UseSiteScope.FirClassUseSiteScope.IsOverridden | compiler/fir/resolve/src/org/jetbrains/kotlin/fir/scopes/impl/FirClassUseSiteScope.kt:55-84 | answers from the `overrides` field when the base is cached, computes and stores the decision otherwise, and leaves every other entry unchanged |
| UseSiteScope.FirClassUseSiteScope.ProcessByName | compiler/fir/resolve/src/org/jetbrains/kotlin/fir/scopes/impl/FirClassUseSiteScope.kt:86-103 | the two-phase loop returns the action, the members passed and the new cache that the lookup function gives from the old cache; with a well-formed supertype scope and a sound cache it keeps the cache sound and answers as a fresh scope would |
| UseSiteScope.FirClassUseSiteScope.ProcessDeclaredMembers | compiler/fir/resolve/src/org/jetbrains/kotlin/fir/scopes/impl/FirClassUseSiteScope.kt:87-92 | the declared-phase loop records every member it passes into the seen-set and stops at the first Stop; its action and passed members are the traversal's, and after a completed phase the seen-set holds exactly the declared members |
| UseSiteScope.FirClassUseSiteScope.ProcessSupertypeMembers | compiler/fir/resolve/src/org/jetbrains/kotlin/fir/scopes/impl/FirClassUseSiteScope.kt:94-102 | the supertype-phase loop consults and updates the `overrides` field per base member and passes on only the non-overridden ones; its outcome, members and new cache are the supertype-phase function's from the old cache |
| UseSiteScope.FirClassUseSiteScope.ProcessFunctionsByName | compiler/fir/resolve/src/org/jetbrains/kotlin/fir/scopes/impl/FirClassUseSiteScope.kt:86-103 | the function lookup of a name, with the contract of the shared lookup over the function lists |
| UseSiteScope.FirClassUseSiteScope.ProcessPropertiesByName | compiler/fir/resolve/src/org/jetbrains/kotlin/fir/scopes/impl/FirClassUseSiteScope.kt:105-122 | the property lookup of a name, with the contract of the shared lookup over the property lists |
| Scenarios.DerivedOverrideHidesBase | compiler/fir/resolve/src/org/jetbrains/kotlin/fir/scopes/impl/FirClassUseSiteScope.kt:94-102 | `override fun f(): String` over `open fun f(): Any` yields only the derived member and caches the decision |
| Scenarios.DerivedOverrideFromCache | compiler/fir/resolve/src/org/jetbrains/kotlin/fir/scopes/impl/FirClassUseSiteScope.kt:56 | with the decision for `f` already cached, the same lookup yields only the derived member and leaves the cache as it is |
| Scenarios.FinalBaseStaysVisible | compiler/fir/resolve/src/org/jetbrains/kotlin/fir/scopes/impl/FirClassUseSiteScope.kt:77 | a final base member is yielded after a same-named override-marked declaration |
| Scenarios.UnmarkedDeclarationShadowsNothing | compiler/fir/resolve/src/org/jetbrains/kotlin/fir/scopes/impl/FirClassUseSiteScope.kt:77 | a declaration without the override marker does not hide the base member |
| Scenarios.QueryTwice | compiler/fir/resolve/src/org/jetbrains/kotlin/fir/scopes/impl/FirClassUseSiteScope.kt:56 | querying one name twice on a use-site scope yields the same members, the second time from the cache |

## Left out

- The session, the `lookupInFir` flag and the unshown base class
  `FirAbstractProviderBasedScope` are not part of this model. They play no part
  in the lookup.
- The concrete bodies of `isSubtypeOf` and `isEqualTypes`, which are stubs
  answering true, are left out on purpose. The model keeps both predicates
  abstract so that the override rules have content. The `cast` to a resolved
  type reference, and its failure on an unresolved one, are also left out:
  every type reference in the model is resolved.
- The casts `this as AbstractFirBasedSymbol<FirCallableMember>` and
  `it as AbstractFirBasedSymbol<FirCallableMember>` (FirClassUseSiteScope.kt:74
  and :76) are left out, and so is the ClassCastException they throw for a
  symbol that has no FIR declaration. Every model `Symbol` carries its
  declaration.
- The internals of the declared-member scope and of the merged supertype
  scope are not part of this model. Each is a fixed, ordered list of symbols
  per name and category, traversed with the Stop contract.
- Side effects of the processor other than its answers are not modelled.
  The members passed to it are returned as `yielded`.
- A processor that reads the scope's `overrides` map, or re-enters the scope,
  is not modelled. Both are public (FirClassUseSiteScope.kt:37 and :55), and
  the supertype phase writes `overrides[this]` (:82) before it calls the
  processor (:98). For such a processor the answers depend on more than the
  members passed, and the by-name methods' contracts do not describe the
  resulting cache or members.
- Object identity of symbols is modelled as value equality of
  `Symbol(id, declaration)`.
- The `!` operator on the processor action (true for Stop) is defined
  outside FirClassUseSiteScope.kt. The model uses its meaning directly: a stopped declared
  phase returns Stop.
- FirTransformerGenerated.kt, AsyncScriptDependenciesLoader.kt and
  _UArraysJvm.kt are not part of this model. They hold generated one-line
  delegations, IDE concurrency plumbing and thin wrappers over a platform
  library.
- MemberLookup.LookupFeedsEffectiveMembers: requires that the cache agrees
  and that no decision fails, because the reference list has no error case.
  The error path is covered instead by `LookupHonoursStop`,
  `DeclaredMembersComeFirst` and `FatalOnlyFromUnknownKind`.
